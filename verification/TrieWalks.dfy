/** Walks over the whole trie: the purge of a dead server's files, which recurses, and the
    listings, one with its own stack and one that recurses. */
module TrieWalks {
  import opened Text
  import opened Metadata
  import opened Directory
  import opened Registry
  import opened Trie
  import Acl
  import Cache

  // ---- Parts of a tree of paths ---------------------------------------------------------------

  ghost function Subtree(paths: set<string>, path: string): set<string> {
    set p | p in paths && path <= p
  }

  /** The path itself and what is below its first `i` children. */
  ghost function Part(paths: set<string>, path: string, i: int): set<string> {
    set p | p in paths && path <= p && (p == path || p[|path|] as int < i)
  }

  lemma PartNext(paths: set<string>, path: string, i: nat)
    requires i < ALPHABET && PrefixClosed(paths)
    ensures Part(paths, path, i + 1) ==
            Part(paths, path, i) + if Below(path, i) in paths then Subtree(paths, Below(path, i)) else {}
  {
    var q := Below(path, i);
    forall p | p in paths
      ensures p in Part(paths, path, i + 1) <==> p in Part(paths, path, i) || (q in paths && q <= p)
    {
      if path <= p && p != path && p[|path|] == i as char {
        assert p[..|path| + 1] == q;
        PrefixInside(paths, p, |path| + 1);
      }
    }
  }

  lemma PartEnds(paths: set<string>, path: string)
    requires forall p :: p in paths ==> Ascii(p)
    ensures path in paths ==> Part(paths, path, 0) == {path}
    ensures Part(paths, path, ALPHABET) == Subtree(paths, path)
  {
    forall p | p in paths && path <= p && p != path
      ensures 0 <= p[|path|] as int < ALPHABET
    {
      assert AsciiChar(p[|path|]);
    }
  }

  lemma SmallerSubtree(paths: set<string>, path: string, c: nat)
    requires c < ALPHABET && path in paths
    ensures Subtree(paths, Below(path, c)) < Subtree(paths, path)
  {
    assert path in Subtree(paths, path) && path !in Subtree(paths, Below(path, c));
  }

  // ---- Purge ----------------------------------------------------------------------------------

  /** The directory without a server's files on some paths, and the names they had. */
  ghost function Without(dir: Dir, server: int, paths: set<string>): Dir {
    map p | p in dir && !(p in paths && dir[p].server == server) :: dir[p]
  }

  ghost function NamesOn(dir: Dir, server: int, paths: set<string>): set<string> {
    set p | p in dir && p in paths && dir[p].server == server :: dir[p].name
  }

  lemma WithoutMore(dir: Dir, server: int, paths: set<string>, more: set<string>)
    ensures Without(Without(dir, server, paths), server, more) == Without(dir, server, paths + more)
    ensures NamesOn(dir, server, paths) + NamesOn(Without(dir, server, paths), server, more) == NamesOn(dir, server, paths + more)
  {
    var dir' := Without(dir, server, paths);
    forall name
      ensures name in NamesOn(dir, server, paths) || name in NamesOn(dir', server, more) <==> name in NamesOn(dir, server, paths + more)
    {
      if name in NamesOn(dir, server, paths + more) {
        var p :| p in dir && p in paths + more && dir[p].server == server && dir[p].name == name;
        assert p in paths || (p in dir' && p in more);
      }
    }
  }

  lemma WithoutOne(dir: Dir, server: int, p: string)
    ensures if p in dir && dir[p].server == server
      then Without(dir, server, {p}) == dir - {p} && NamesOn(dir, server, {p}) == {dir[p].name}
      else Without(dir, server, {p}) == dir && NamesOn(dir, server, {p}) == {}
  {
  }

  lemma WithoutAll(dir: Dir, server: int, paths: set<string>)
    requires dir.Keys <= paths
    ensures Without(dir, server, Subtree(paths, "")) == Purge(dir, server)
    ensures NamesOn(dir, server, Subtree(paths, "")) == PurgedNames(dir, server)
  {
    assert forall p :: p in paths ==> p in Subtree(paths, "");
  }

  /** What the purge has done once it went over `paths`. */
  ghost predicate PurgedOn(dir: Dir, dir': Dir, c: seq<Cache.Entry>, c': seq<Cache.Entry>, server: int,
      paths: set<string>) {
    dir' == Without(dir, server, paths) && c' == Cache.Dropped(c, NamesOn(dir, server, paths))
  }

  lemma PurgedMore(dir: Dir, dir': Dir, dir'': Dir, c: seq<Cache.Entry>, c': seq<Cache.Entry>, c'': seq<Cache.Entry>,
                   server: int, paths: set<string>, more: set<string>)
    requires PurgedOn(dir, dir', c, c', server, paths) && PurgedOn(dir', dir'', c', c'', server, more)
    ensures PurgedOn(dir, dir'', c, c'', server, paths + more)
  {
    WithoutMore(dir, server, paths, more);
    Cache.DropsMore(c, NamesOn(dir, server, paths), NamesOn(dir', server, more));
  }

  lemma PurgedHere(dir: Dir, c: seq<Cache.Entry>, server: int, p: string)
    requires Cache.NoTwice(c)
    ensures if p in dir && dir[p].server == server
      then PurgedOn(dir, dir - {p}, c, Cache.Invalidated(c, dir[p].name), server, {p})
      else PurgedOn(dir, dir, c, c, server, {p})
  {
    WithoutOne(dir, server, p);
    Cache.DropsNothing(c);
    if p in dir && dir[p].server == server {
      Cache.InvalidatedDrops(c, {}, dir[p].name);
      assert {} + {dir[p].name} == {dir[p].name};
    }
  }

  lemma StillNoTwice(dir: Dir, dir': Dir, c: seq<Cache.Entry>, c': seq<Cache.Entry>, server: int, paths: set<string>)
    requires Cache.NoTwice(c) && PurgedOn(dir, dir', c, c', server, paths)
    ensures Cache.NoTwice(c')
  {
    Cache.DropsMore(c, NamesOn(dir, server, paths), {});
  }

  /** The node's own file, if it has one on the dead server. */
  method PurgeHere(t: FileTrie, node: TrieNode, ghost path: string, server: int, cache: Cache.FileCache)
    requires t.Valid() && path in t.nodes && t.nodes[path] == node
    requires cache.Valid() && Cache.NoTwice(cache.slots[..]) && cache.slots !in t.repr
    modifies t`records, t`dir, node`file, cache.slots
    ensures t.Valid()
    ensures PurgedOn(old(t.dir), t.dir, old(cache.slots[..]), cache.slots[..], server, {path})
  {
    hide PurgedOn, Cache.NoTwice, Cache.Invalidated, t.Valid;
    var file := node.file;
    t.IsTree(path);
    t.IsShown();
    PurgedHere(t.dir, cache.slots[..], server, path);
    if file != null {
      t.ListOf(path);
      if file.server == server {
        cache.Invalidate(file.name);
        t.DropRecord(node, path);
      }
    }
  }

  /** `recursive_purge_by_ss`: the files of the dead server at a node and below it lose
      their records and their cached names. */
  method PurgeNode(t: FileTrie, node: TrieNode, ghost path: string, server: int, cache: Cache.FileCache)
    requires t.Valid() && path in t.nodes && t.nodes[path] == node
    requires cache.Valid() && Cache.NoTwice(cache.slots[..]) && cache.slots !in t.repr
    modifies t`records, t`dir, t.nodes.Values`file, cache.slots
    ensures t.Valid()
    ensures PurgedOn(old(t.dir), t.dir, old(cache.slots[..]), cache.slots[..], server, Subtree(t.nodes.Keys, path))
    decreases Subtree(t.nodes.Keys, path)
  {
    hide Below, PurgedOn, Part, Subtree, PrefixClosed, Cache.NoTwice, Cache.Invalidated, t.Valid;
    ghost var paths, was, c := t.nodes.Keys, t.dir, cache.slots[..];
    t.IsTree(path);
    PathsAscii(t);
    PurgeHere(t, node, path, server, cache);
    PartEnds(paths, path);
    var i := 0;
    while i < ALPHABET
      invariant 0 <= i <= ALPHABET && t.Valid() && t.nodes == old(t.nodes)
      invariant PurgedOn(was, t.dir, c, cache.slots[..], server, Part(paths, path, i))
    {
      t.ChildIs(path, i);
      PartNext(paths, path, i);
      var child := node.children[i];
      if child != null {
        ghost var q, dir', c' := Below(path, i), t.dir, cache.slots[..];
        StillNoTwice(was, dir', c, c', server, Part(paths, path, i));
        SmallerSubtree(paths, path, i);
        PurgeNode(t, child, q, server, cache);
        PurgedMore(was, dir', t.dir, c, c', cache.slots[..], server, Part(paths, path, i), Subtree(paths, q));
      } else {
        PlusNothing(Part(paths, path, i));
      }
      i := i + 1;
    }
  }

  lemma PlusNothing(s: set<string>)
    ensures s + {} == s
  {
  }

  lemma PathsAscii(t: FileTrie)
    requires t.Valid()
    ensures forall p :: p in t.nodes.Keys ==> Ascii(p)
  {
  }

  /** `search_purge_by_ss`. */
  method PurgeServer(t: FileTrie, server: int, cache: Cache.FileCache)
    requires t.Valid() && cache.Valid() && Cache.NoTwice(cache.slots[..]) && cache.slots !in t.repr
    modifies t`records, t`dir, t.nodes.Values`file, cache.slots
    ensures t.Valid()
    ensures if 0 <= server < MAX_SERVERS
      then t.dir == Purge(old(t.dir), server) && cache.slots[..] == Cache.Dropped(old(cache.slots[..]), PurgedNames(old(t.dir), server))
      else t.dir == old(t.dir) && cache.slots[..] == old(cache.slots[..])
  {
    if server < 0 || server >= MAX_SERVERS {
      return;
    }
    t.IsTree("");
    t.IsShown();
    WithoutAll(t.dir, server, t.nodes.Keys);
    PurgeNode(t, t.root, "", server, cache);
  }

  // ---- Listings -------------------------------------------------------------------------------

  /** VIEW and VIEWFOLDER list a folder's files that the user may read, or all of them. */
  predicate Listed(r: Rec, folder: string, user: string, all: bool) {
    r.folder == folder && (all || r.owner == user || Acl.Allows(r.acl, user, READ))
  }

  const READ: int := 1

  /** `out` holds the records at `at`, no path twice. */
  ghost predicate RecordsAt(dir: Dir, out: seq<Rec>, at: seq<string>) {
    |out| == |at| && Distinct(at) && forall k | 0 <= k < |at| :: at[k] in dir && out[k] == dir[at[k]]
  }

  // ---- The stack ------------------------------------------------------------------------------

  ghost predicate Covered(todo: seq<string>, p: string) {
    exists k :: 0 <= k < |todo| && todo[k] <= p
  }

  /** Every path was seen or lies below exactly one path on the stack, and no path on the
      stack is below another. */
  ghost predicate Frontier(paths: set<string>, todo: seq<string>, seen: set<string>) {
    (forall k | 0 <= k < |todo| :: todo[k] in paths) &&
    (forall p :: p in paths ==> (p in seen <==> !Covered(todo, p))) &&
    forall j, k | 0 <= j < |todo| && 0 <= k < |todo| && j != k :: !(todo[j] <= todo[k])
  }

  /** The paths of the first `i` children. */
  ghost function ChildPaths(paths: set<string>, path: string, i: nat): (r: seq<string>)
    requires i <= ALPHABET
    ensures forall k | 0 <= k < |r| :: r[k] in paths && path <= r[k] && |r[k]| == |path| + 1 && r[k][|path|] as int < i
    ensures forall j, k | 0 <= j < k < |r| :: r[j] != r[k]
    ensures forall c | 0 <= c < i && Below(path, c) in paths :: Below(path, c) in r
  {
    if i == 0 then []
    else
      var q := Below(path, i - 1);
      ChildPaths(paths, path, i - 1) + if q in paths then [q] else []
  }

  /** `kids` are children of `path`, each once. */
  ghost predicate Kids(paths: set<string>, path: string, kids: seq<string>) {
    (forall k | 0 <= k < |kids| :: kids[k] in paths && path <= kids[k] && |kids[k]| == |path| + 1) &&
    forall j, k | 0 <= j < k < |kids| :: kids[j] != kids[k]
  }

  /** The children of the popped path cover what it covered, but for itself. */
  lemma StillCovered(paths: set<string>, todo: seq<string>, path: string, kids: seq<string>, p: string)
    requires PrefixClosed(paths) && Ascii(p) && p in paths && kids == ChildPaths(paths, path, ALPHABET)
    ensures Covered(todo + kids, p) <==> Covered(todo, p) || (path <= p && p != path)
  {
    hide PrefixClosed, Ascii;
    var todo' := todo + kids;
    forall k | 0 <= k < |kids|
      ensures kids[k] <= p ==> path <= p && p != path
    {
      BelowBoth(path, kids[k], p);
    }
    if k :| 0 <= k < |todo| && todo[k] <= p {
      assert todo'[k] <= p;
    } else if path <= p && p != path {
      hide ChildPaths;
      var q := ChildToward(paths, path, p);
      var m :| 0 <= m < |kids| && kids[m] == q;
      assert todo'[|todo| + m] <= p;
    }
  }

  lemma BelowBoth(path: string, q: string, p: string)
    ensures path <= q <= p ==> path <= p && (|q| > |path| ==> p != path)
  {
  }

  lemma CoveredByLast(rest: seq<string>, path: string, p: string)
    ensures Covered(rest + [path], p) <==> Covered(rest, p) || path <= p
  {
    var todo := rest + [path];
    if k :| 0 <= k < |rest| && rest[k] <= p {
      assert todo[k] <= p;
    }
    if path <= p {
      assert todo[|rest|] <= p;
    }
  }

  lemma StillApart(paths: set<string>, todo: seq<string>, path: string, kids: seq<string>, j: nat, k: nat)
    requires Kids(paths, path, kids) && j < |todo| + |kids| && k < |todo| + |kids| && j != k
    requires forall m | 0 <= m < |todo| :: !(todo[m] <= path) && !(path <= todo[m])
    requires forall m, l | 0 <= m < |todo| && 0 <= l < |todo| && m != l :: !(todo[m] <= todo[l])
    ensures !((todo + kids)[j] <= (todo + kids)[k])
  {
    var n := |todo|;
    if n <= j && n <= k {
      SameLength(kids[j - n], kids[k - n]);
    } else if n <= k {
      PrefixOfNext(todo[j], path, kids[k - n]);
    } else if n <= j {
      BelowBoth(path, kids[j - n], todo[k]);
    }
  }

  lemma FrontierStep(paths: set<string>, rest: seq<string>, path: string, seen: set<string>)
    requires PrefixClosed(paths) && (forall p :: p in paths ==> Ascii(p)) && Frontier(paths, rest + [path], seen)
    ensures path !in seen && Frontier(paths, rest + ChildPaths(paths, path, ALPHABET), seen + {path})
  {
    hide PrefixClosed, Ascii, Covered, Kids;
    var todo, kids := rest + [path], ChildPaths(paths, path, ALPHABET);
    var todo' := rest + kids;
    AreKids(paths, path);
    hide ChildPaths;
    assert todo[|rest|] == path && forall k | 0 <= k < |rest| :: todo[k] == rest[k];
    NotCovered(rest, path);
    forall p | p in paths
      ensures p in seen + {path} <==> !Covered(todo', p)
    {
      CoveredByLast(rest, path, p);
      StillCovered(paths, rest, path, kids, p);
    }
    CoveredByLast(rest, path, path);
    forall j, k | 0 <= j < |todo'| && 0 <= k < |todo'| && j != k
      ensures !(todo'[j] <= todo'[k])
    {
      StillApart(paths, rest, path, kids, j, k);
    }
  }

  lemma NotCovered(todo: seq<string>, p: string)
    requires forall m | 0 <= m < |todo| :: !(todo[m] <= p)
    ensures !Covered(todo, p)
  {
  }

  lemma AreKids(paths: set<string>, path: string)
    ensures Kids(paths, path, ChildPaths(paths, path, ALPHABET))
    ensures forall q :: q in ChildPaths(paths, path, ALPHABET) ==> q in paths
  {
  }

  lemma SameLength(p: string, q: string)
    ensures |p| == |q| && p <= q ==> p == q
  {
  }

  lemma PrefixOfNext(p: string, path: string, q: string)
    requires path <= q && |q| == |path| + 1
    ensures p <= q ==> p <= path || p == q
  {
  }

  lemma ChildToward(paths: set<string>, path: string, p: string) returns (q: string)
    requires PrefixClosed(paths) && p in paths && Ascii(p) && path <= p && p != path
    ensures q <= p && q in ChildPaths(paths, path, ALPHABET)
  {
    var c := p[|path|];
    assert AsciiChar(c);
    q := Below(path, c as int);
    assert p[..|path| + 1] == q;
    PrefixInside(paths, p, |path| + 1);
  }

  // ---- The explicit-stack walk ----------------------------------------------------------------

  /** Which paths the walk has listed. */
  ghost predicate ListedOf(dir: Dir, at: seq<string>, seen: set<string>, folder: string, user: string, all: bool) {
    forall p :: p in at <==> p in seen && p in dir && Listed(dir[p], folder, user, all)
  }

  lemma ListStep(dir: Dir, out: seq<Rec>, at: seq<string>, seen: set<string>, p: string, folder: string,
      user: string, all: bool)
    requires RecordsAt(dir, out, at) && ListedOf(dir, at, seen, folder, user, all) && p !in seen
    ensures if p in dir && Listed(dir[p], folder, user, all)
      then RecordsAt(dir, out + [dir[p]], at + [p]) && ListedOf(dir, at + [p], seen + {p}, folder, user, all)
      else ListedOf(dir, at, seen + {p}, folder, user, all)
  {
    hide Listed;
    assert forall k | 0 <= k < |at| :: at[k] in at;
    assert p !in at;
  }

  method PushChildren(t: FileTrie, node: TrieNode, ghost path: string, stack: seq<TrieNode>, ghost rest: seq<string>)
    returns (stack': seq<TrieNode>)
    requires t.Valid() && path in t.nodes && t.nodes[path] == node && OnStack(t.nodes, stack, rest)
    ensures OnStack(t.nodes, stack', rest + ChildPaths(t.nodes.Keys, path, ALPHABET))
  {
    hide Below, ChildPaths, OnStack, t.Valid;
    ghost var paths := t.nodes.Keys;
    stack' := stack;
    var i := 0;
    NoChildYet(paths, rest, path);
    while i < ALPHABET
      invariant 0 <= i <= ALPHABET && OnStack(t.nodes, stack', rest + ChildPaths(paths, path, i))
    {
      t.ChildIs(path, i);
      NextChild(paths, rest, path, i);
      var child := node.children[i];
      if child != null {
        Pushed(t.nodes, stack', rest + ChildPaths(paths, path, i), Below(path, i), child);
        stack' := stack' + [child];
      }
      i := i + 1;
    }
  }

  lemma Pushed(nodes: map<string, TrieNode>, stack: seq<TrieNode>, todo: seq<string>, q: string, child: TrieNode)
    requires OnStack(nodes, stack, todo) && q in nodes && nodes[q] == child
    ensures OnStack(nodes, stack + [child], todo + [q])
  {
  }

  lemma Popped(nodes: map<string, TrieNode>, stack: seq<TrieNode>, todo: seq<string>)
    requires OnStack(nodes, stack, todo) && stack != []
    ensures var sp := |stack| - 1;
      |todo| == sp + 1 && todo == todo[..sp] + [todo[sp]] && todo[sp] in nodes && nodes[todo[sp]] == stack[sp] &&
      OnStack(nodes, stack[..sp], todo[..sp])
  {
  }

  /** The filter is the permission check for READ, which is 1. */
  lemma ListedByCheck(dir: Dir, folder: string, user: string, all: bool)
    requires forall p :: p in dir ==> Clean(dir[p].name) == p
    ensures forall r :: r in dir.Values ==>
              (Listed(r, folder, user, all) <==> r.folder == folder && (all || Check(dir, r.name, user, 1)))
  {
    hide Clean, Acl.Allows;
  }

  /** The walk of VIEW: it ends, and lists each record of the folder that the user passes the
      check of, or every one of it, once. */
  method ListFiles(t: FileTrie, folder: string, user: string, all: bool) returns (out: seq<Rec>)
    requires t.Valid()
    ensures Distinct(out)
    ensures forall r :: r in out <==>
              r in t.dir.Values && r.folder == folder && (all || Check(t.dir, r.name, user, 1))
  {
    hide Below, PrefixClosed, Frontier, ListedOf, RecordsAt, Acl.Allows, ChildPaths, Ascii, OnStack, t.Valid;
    ghost var paths := t.nodes.Keys;
    var stack: seq<TrieNode> := [t.root];
    ghost var todo, seen: set<string> := [""], {};
    ghost var at: seq<string> := [];
    out := [];
    t.IsTree("");
    t.IsShown();
    PathsAscii(t);
    FrontierStart(paths);
    NothingListed(t.dir, folder, user, all);
    Pushed(t.nodes, [], [], "", t.root);
    assert [] + [""] == [""] && [] + [t.root] == [t.root];
    while stack != []
      invariant Frontier(paths, todo, seen) && seen <= paths
      invariant OnStack(t.nodes, stack, todo)
      invariant RecordsAt(t.dir, out, at) && ListedOf(t.dir, at, seen, folder, user, all)
      decreases paths - seen
    {
      Popped(t.nodes, stack, todo);
      var sp := |stack| - 1;
      var node := stack[sp];
      ghost var path := todo[sp];
      ghost var rest := todo[..sp];
      stack := stack[..sp];
      t.IsTree(path);
      FrontierStep(paths, rest, path, seen);
      ListStep(t.dir, out, at, seen, path, folder, user, all);
      var file := node.file;
      if file != null {
        t.ListOf(path);
        var listed := file.folder == folder;
        if listed && !all && file.owner != user {
          listed := Acl.CheckAcl(file.acl, user, READ);
        }
        if listed {
          out, at := out + [file.View()], at + [path];
        }
      }
      stack := PushChildren(t, node, path, stack, rest);
      todo, seen := rest + ChildPaths(paths, path, ALPHABET), seen + {path};
    }
    StackEmpty(t.nodes, todo);
    AllSeen(paths, todo, seen);
    EndOfList(t.dir, at, seen, folder, user, all);
    OwnPaths(t);
    EndOfWalk(t.dir, out, at);
    ListedByCheck(t.dir, folder, user, all);
  }

  /** The stack holds the nodes of `todo`. */
  ghost predicate OnStack(nodes: map<string, TrieNode>, stack: seq<TrieNode>, todo: seq<string>) {
    |stack| == |todo| && forall k | 0 <= k < |todo| :: todo[k] in nodes && nodes[todo[k]] == stack[k]
  }

  lemma StackEmpty(nodes: map<string, TrieNode>, todo: seq<string>)
    requires OnStack(nodes, [], todo)
    ensures todo == []
  {
  }

  lemma FrontierStart(paths: set<string>)
    requires "" in paths
    ensures Frontier(paths, [""], {})
  {
    forall p | p in paths ensures Covered([""], p) {
      assert [""][0] <= p;
    }
  }

  lemma NothingListed(dir: Dir, folder: string, user: string, all: bool)
    ensures RecordsAt(dir, [], []) && ListedOf(dir, [], {}, folder, user, all)
  {
  }

  lemma NoChildYet(paths: set<string>, rest: seq<string>, path: string)
    ensures rest + ChildPaths(paths, path, 0) == rest
  {
  }

  lemma NextChild(paths: set<string>, rest: seq<string>, path: string, i: nat)
    requires i < ALPHABET
    ensures var q := Below(path, i);
      rest + ChildPaths(paths, path, i + 1) ==
      if q in paths then rest + ChildPaths(paths, path, i) + [q] else rest + ChildPaths(paths, path, i)
  {
    hide Below;
  }

  lemma AllSeen(paths: set<string>, todo: seq<string>, seen: set<string>)
    requires Frontier(paths, todo, seen) && todo == []
    ensures paths <= seen
  {
  }

  lemma EndOfList(dir: Dir, at: seq<string>, seen: set<string>, folder: string, user: string, all: bool)
    requires ListedOf(dir, at, seen, folder, user, all) && dir.Keys <= seen
    ensures forall p :: p in at <==> p in dir && Listed(dir[p], folder, user, all)
  {
  }

  // ---- The recursive walk ---------------------------------------------------------------------

  /** Records of these paths, and all of them unless the room is used up. */
  ghost predicate CollectedOn(dir: Dir, out: seq<Rec>, at: seq<string>, paths: set<string>, room: nat) {
    RecordsAt(dir, out, at) && |out| <= room && (forall p :: p in at ==> p in dir && p in paths) &&
    (|out| < room ==> forall p :: p in dir && p in paths ==> p in at)
  }

  lemma CollectedMore(dir: Dir, out: seq<Rec>, at: seq<string>, paths: set<string>, out': seq<Rec>,
      at': seq<string>, more: set<string>, room: nat)
    requires CollectedOn(dir, out, at, paths, room) && CollectedOn(dir, out', at', more, room - |out|) && paths !! more
    ensures CollectedOn(dir, out + out', at + at', paths + more, room)
  {
    forall j, k | 0 <= j < k < |at + at'|
      ensures (at + at')[j] != (at + at')[k]
    {
      assert forall m | 0 <= m < |at| :: at[m] in at;
      assert forall m | 0 <= m < |at'| :: at'[m] in at';
    }
  }

  lemma CollectedHere(dir: Dir, p: string, room: nat)
    requires room > 0
    ensures if p in dir then CollectedOn(dir, [dir[p]], [p], {p}, room) else CollectedOn(dir, [], [], {p}, room)
  {
  }

  lemma NoRoom(dir: Dir, paths: set<string>)
    ensures CollectedOn(dir, [], [], paths, 0)
  {
  }

  lemma PartApart(paths: set<string>, path: string, i: nat)
    requires i < ALPHABET
    ensures Part(paths, path, i) !! Subtree(paths, Below(path, i))
  {
  }

  /** `collect_files_recursive`: the records below a node, each once, as long as there is room. */
  method Collect(t: FileTrie, node: TrieNode, room: nat, ghost path: string) returns (out: seq<Rec>, ghost at: seq<string>)
    requires t.Valid() && path in t.nodes && t.nodes[path] == node
    ensures CollectedOn(t.dir, out, at, Subtree(t.nodes.Keys, path), room)
    decreases Subtree(t.nodes.Keys, path)
  {
    hide Below, CollectedOn, Part, Subtree, PrefixClosed, t.Valid;
    ghost var paths := t.nodes.Keys;
    t.IsTree(path);
    t.IsShown();
    out, at := [], [];
    if room == 0 {
      NoRoom(t.dir, Subtree(paths, path));
      return;
    }
    CollectedHere(t.dir, path, room);
    if node.file != null {
      t.ListOf(path);
      out, at := [node.file.View()], [path];
    }
    PathsAscii(t);
    PartEnds(paths, path);
    var i := 0;
    while i < ALPHABET
      invariant 0 <= i <= ALPHABET
      invariant |out| <= room && CollectedOn(t.dir, out, at, Part(paths, path, i), room)
    {
      t.ChildIs(path, i);
      PartNext(paths, path, i);
      var child := node.children[i];
      if child != null {
        SmallerSubtree(paths, path, i);
        PartApart(paths, path, i);
        ghost var q := Below(path, i);
        var more, moreAt := Collect(t, child, room - |out|, q);
        CollectedMore(t.dir, out, at, Part(paths, path, i), more, moreAt, Subtree(paths, q), room);
        WithinRoom(t.dir, more, moreAt, Subtree(paths, q), room - |out|);
        out, at := out + more, at + moreAt;
      } else {
        PlusNothing(Part(paths, path, i));
      }
      i := i + 1;
    }
  }

  lemma OwnPaths(t: FileTrie)
    requires t.Valid()
    ensures forall p :: p in t.dir ==> Clean(t.dir[p].name) == p
  {
  }

  /** Records carry their paths, so different paths have different records. */
  lemma EndOfWalk(dir: Dir, out: seq<Rec>, at: seq<string>)
    requires RecordsAt(dir, out, at) && forall p :: p in dir ==> Clean(dir[p].name) == p
    ensures Distinct(out) && forall r :: r in out <==> exists p :: p in at && p in dir && dir[p] == r
  {
    hide Clean;
    forall r
      ensures r in out <==> exists p :: p in at && p in dir && dir[p] == r
    {
      if r in out {
        var k :| 0 <= k < |out| && out[k] == r;
        assert at[k] in at && dir[at[k]] == r;
      }
      if p :| p in at && p in dir && dir[p] == r {
        var k :| 0 <= k < |at| && at[k] == p;
        assert out[k] == r;
      }
    }
  }

  lemma WithinRoom(dir: Dir, out: seq<Rec>, at: seq<string>, paths: set<string>, room: nat)
    requires CollectedOn(dir, out, at, paths, room)
    ensures |out| <= room
  {
  }

  /** Different members of a set, no more than it has. */
  lemma {:induction false} DistinctWithin<T>(s: seq<T>, all: set<T>)
    requires Distinct(s) && forall x :: x in s ==> x in all
    ensures |s| <= |all| && (|s| == |all| ==> forall x :: x in all ==> x in s)
  {
    if s != [] {
      var rest := s[1..];
      assert forall x :: x in rest ==> x in s;
      assert forall k | 0 <= k < |rest| :: rest[k] == s[k + 1];
      DistinctWithin(rest, all - {s[0]});
    }
  }

  /** The walk from the root ends with as many records as there is room for. */
  lemma CollectedAll(dir: Dir, out: seq<Rec>, at: seq<string>, paths: set<string>, max: nat)
    requires CollectedOn(dir, out, at, paths, max) && dir.Keys <= paths
    ensures |out| == |at| == if |dir| <= max then |dir| else max
    ensures |dir| <= max ==> forall p :: p in at <==> p in dir
  {
    DistinctWithin(at, dir.Keys);
    if |out| < max {
      Covering(at, dir.Keys);
    }
  }

  lemma {:induction false} Covering<T>(s: seq<T>, all: set<T>)
    requires forall x :: x in all ==> x in s
    ensures |all| <= |s|
  {
    if s != [] {
      Covering(s[1..], all - {s[0]});
    }
  }

  /** The records of the trie, each once, as the recursive walk from the root finds them:
      all of them if there is room, and otherwise as many as there is room for. */
  method CollectFiles(t: FileTrie, max: nat) returns (out: seq<Rec>)
    requires t.Valid()
    ensures Distinct(out) && |out| == (if |t.dir| <= max then |t.dir| else max)
    ensures forall r :: r in out ==> r in t.dir.Values
    ensures |t.dir| <= max ==> forall r :: r in t.dir.Values ==> r in out
  {
    hide CollectedOn, t.Valid;
    t.IsTree("");
    t.IsShown();
    OwnPaths(t);
    ghost var at;
    out, at := Collect(t, t.root, max, "");
    assert forall p :: p in t.dir ==> p in Subtree(t.nodes.Keys, "");
    CollectedAll(t.dir, out, at, Subtree(t.nodes.Keys, ""), max);
    OfDirectory(t.dir, out, at, Subtree(t.nodes.Keys, ""), max);
    EndOfWalk(t.dir, out, at);
  }

  lemma OfDirectory(dir: Dir, out: seq<Rec>, at: seq<string>, paths: set<string>, room: nat)
    requires CollectedOn(dir, out, at, paths, room)
    ensures RecordsAt(dir, out, at)
  {
  }

  lemma {:induction false} OnceCounts(out: seq<Rec>, r: Rec)
    requires Distinct(out)
    ensures multiset(out)[r] == if r in out then 1 else 0
  {
    if out != [] {
      assert out == [out[0]] + out[1..];
      OnceCounts(out[1..], r);
    }
  }

  /** What the listing shows is exactly what the recursive walk reaches and the check lets
      pass, each record as often. */
  lemma ListedIsCollected(dir: Dir, listed: seq<Rec>, collected: seq<Rec>, folder: string, user: string, all: bool, r: Rec)
    requires Distinct(listed) && Distinct(collected)
    requires forall x :: x in listed <==> x in dir.Values && x.folder == folder && (all || Check(dir, x.name, user, 1))
    requires forall x :: x in collected <==> x in dir.Values
    ensures multiset(listed)[r] ==
            if r.folder == folder && (all || Check(dir, r.name, user, 1)) then multiset(collected)[r] else 0
  {
    hide Check;
    OnceCounts(listed, r);
    OnceCounts(collected, r);
  }

  /** VIEW with its long flag walks the trie twice: to collect the files whose storage servers
      it asks, and then to list. If there is room for all, what it lists is what it collected
      and lets pass, each record as often; if not, it lists all it collected and lets pass. */
  method ViewLong(t: FileTrie, folder: string, user: string, all: bool, max: nat)
      returns (collected: seq<Rec>, listed: seq<Rec>)
    requires t.Valid()
    ensures |collected| == if |t.dir| <= max then |t.dir| else max
    ensures forall r :: r in collected && r.folder == folder && (all || Check(t.dir, r.name, user, 1)) ==>
              multiset(listed)[r] == multiset(collected)[r] == 1
    ensures |t.dir| <= max ==> forall r ::
              multiset(listed)[r] ==
              if r.folder == folder && (all || Check(t.dir, r.name, user, 1)) then multiset(collected)[r] else 0
  {
    hide t.Valid, Distinct, Check;
    collected := CollectFiles(t, max);
    listed := ListFiles(t, folder, user, all);
    forall r
      ensures multiset(listed)[r] == if r in listed then 1 else 0
      ensures multiset(collected)[r] == if r in collected then 1 else 0
    {
      OnceCounts(listed, r);
      OnceCounts(collected, r);
    }
    if |t.dir| <= max {
      forall r
        ensures multiset(listed)[r] ==
                if r.folder == folder && (all || Check(t.dir, r.name, user, 1)) then multiset(collected)[r] else 0
      {
        ListedIsCollected(t.dir, listed, collected, folder, user, all, r);
      }
    }
  }
}
