/** The name server's file index: a trie of mutable nodes, one child pointer per ASCII
    character, with file records that are updated in place. */
module Trie {
  import opened Text
  import opened Metadata
  import opened Directory
  import Acl
  import Cache

  // ---- Paths ----------------------------------------------------------------------------------

  /** The path one character below. */
  function Below(path: string, c: nat): (q: string)
    requires c < ALPHABET
    ensures |q| == |path| + 1 && q[..|path|] == path && q[|path|] == c as char
  {
    path + [c as char]
  }

  lemma BelowOnce(p: string, c: nat, q: string, d: nat)
    requires c < ALPHABET && d < ALPHABET && Below(p, c) == Below(q, d)
    ensures p == q && c == d
  {
    assert Below(p, c)[..|p|] == p && Below(q, d)[..|q|] == q;
  }

  ghost predicate PrefixClosed(paths: set<string>) {
    forall p :: p in paths && p != "" ==> p[..|p| - 1] in paths
  }

  lemma {:induction false} PrefixInside(paths: set<string>, p: string, n: nat)
    requires PrefixClosed(paths) && p in paths && n <= |p|
    ensures p[..n] in paths
    decreases |p|
  {
    if n == |p| {
      assert p[..n] == p;
    } else {
      PrefixInside(paths, p[..|p| - 1], n);
      assert p[..|p| - 1][..n] == p[..n];
    }
  }

  lemma PathBroken(paths: set<string>, p: string, q: string)
    requires PrefixClosed(paths) && q <= p && q !in paths
    ensures p !in paths
  {
    if p in paths {
      assert p[..|q|] == q;
      PrefixInside(paths, p, |q|);
    }
  }

  lemma {:induction false} CleanSplit(name: string, i: nat)
    requires i <= |name|
    ensures Clean(name) == Clean(name[..i]) + Clean(name[i..])
  {
    if i == 0 {
      assert name[i..] == name;
    } else {
      CleanSplit(name[1..], i - 1);
      CleanFirst(name);
      CleanFirst(name[..i]);
      hide Clean;
      assert name[..i][1..] == name[1..][..i - 1] && name[i..] == name[1..][i - 1..] && name[..i][0] == name[0];
    }
  }

  lemma CleanFirst(name: string)
    requires name != ""
    ensures Clean(name) == (if AsciiChar(name[0]) then [name[0]] else "") + Clean(name[1..])
  {
  }

  lemma CleanNothing(name: string)
    ensures Clean(name[..0]) == ""
  {
  }

  /** One more character of the name: the path goes on, or the character is skipped. */
  lemma CleanNext(name: string, i: nat)
    requires i < |name|
    ensures Clean(name[..i + 1]) ==
            if AsciiChar(name[i]) then Below(Clean(name[..i]), name[i] as int) else Clean(name[..i])
    ensures Clean(name[..i + 1]) <= Clean(name)
  {
    hide Clean, AsciiChar;
    var before := name[..i];
    TakeNext(name, i);
    CleanSnoc(before, name[i]);
    AppendNothing(Clean(before));
    CleanSplit(name, i + 1);
    IsPrefix(Clean(name[..i + 1]), Clean(name[i + 1..]));
  }

  lemma ExactNext(name: string, i: nat)
    requires i < |name| && AsciiChar(name[i])
    ensures name[..i + 1] == Below(name[..i], name[i] as int) && name[..i + 1] <= name
  {
    TakeNext(name, i);
  }

  lemma NothingYet(name: string)
    ensures name[..0] == ""
  {
  }

  lemma TakeNext<T>(s: seq<T>, i: nat)
    requires i < |s|
    ensures s[..i + 1] == s[..i] + [s[i]]
  {
  }

  lemma AppendNothing(p: string)
    ensures p + "" == p
  {
  }

  lemma IsPrefix(p: string, q: string)
    ensures p <= p + q
  {
  }

  // ---- Nodes and records ----------------------------------------------------------------------

  class FileRecord {
    const name: string
    const owner: string
    const server: int
    const folder: string
    const words: int
    const chars: int
    const created: int
    const modified: int
    const accessed: int
    const accessedBy: string
    var acl: seq<Acl.Entry>

    function View(): Rec
      reads this
    {
      Rec(name, owner, server, folder, words, chars, created, modified, accessed, accessedBy, acl)
    }

    constructor (r: Rec)
      ensures View() == r
    {
      name, owner, server, folder, words, chars := r.name, r.owner, r.server, r.folder, r.words, r.chars;
      created, modified, accessed, accessedBy, acl := r.created, r.modified, r.accessed, r.accessedBy, r.acl;
    }
  }

  class TrieNode {
    var children: seq<TrieNode?>
    var file: FileRecord?

    constructor ()
      ensures NoneOf(children) && file == null
    {
      children, file := seq(ALPHABET, _ => null), null;
    }
  }

  ghost function NodeAt(nodes: map<string, TrieNode>, p: string): TrieNode? {
    if p in nodes then nodes[p] else null
  }

  ghost function RecordAt(records: map<string, FileRecord>, p: string): FileRecord? {
    if p in records then records[p] else null
  }

  predicate NoneOf(children: seq<TrieNode?>) {
    children == seq(ALPHABET, _ => null)
  }

  /** The child pointers of the node at `p` are the nodes one character below. */
  ghost predicate Linked(nodes: map<string, TrieNode>, p: string, children: seq<TrieNode?>) {
    |children| == ALPHABET && forall c | 0 <= c < ALPHABET :: children[c] == NodeAt(nodes, Below(p, c))
  }

  ghost predicate Owned(nodes: map<string, TrieNode>, records: map<string, FileRecord>, repr: set<object>) {
    nodes.Values <= repr && records.Values <= repr
  }

  lemma OwnedWithNode(nodes: map<string, TrieNode>, records: map<string, FileRecord>, repr: set<object>,
      p: string, node: TrieNode)
    requires Owned(nodes, records, repr)
    ensures Owned(nodes[p := node], records, repr + {node})
  {
  }

  lemma OwnedWithRecord(nodes: map<string, TrieNode>, records: map<string, FileRecord>,
      repr: set<object>, p: string, file: FileRecord)
    requires Owned(nodes, records, repr)
    ensures Owned(nodes, records[p := file], repr + {file})
  {
  }

  lemma OwnedWithoutRecord(nodes: map<string, TrieNode>, records: map<string, FileRecord>, repr: set<object>, p: string)
    requires Owned(nodes, records, repr)
    ensures Owned(nodes, records - {p}, repr)
  {
  }

  /** One node a path and one path a node, and no path without its beginnings. */
  ghost predicate Tree(root: TrieNode, nodes: map<string, TrieNode>) {
    "" in nodes && nodes[""] == root && PrefixClosed(nodes.Keys) && (forall p :: p in nodes ==> Ascii(p)) &&
    forall p, q :: p in nodes && q in nodes && p != q ==> nodes[p] != nodes[q]
  }

  lemma TreeGrows(root: TrieNode, nodes: map<string, TrieNode>, path: string, c: nat, child: TrieNode)
    requires Tree(root, nodes) && path in nodes && c < ALPHABET && Below(path, c) !in nodes && child !in nodes.Values
    ensures Tree(root, nodes[Below(path, c) := child])
  {
    var q, nodes' := Below(path, c), nodes[Below(path, c) := child];
    forall p | p in nodes' && p != ""
      ensures p[..|p| - 1] in nodes'
    {
    }
  }

  lemma LinkedStays(nodes: map<string, TrieNode>, p: string, children: seq<TrieNode?>, path: string,
      c: nat, child: TrieNode)
    requires Linked(nodes, p, children) && c < ALPHABET
    ensures Linked(nodes[Below(path, c) := child], p, if p == path then children[c := child] else children)
  {
    forall k | 0 <= k < ALPHABET
      ensures Below(p, k) == Below(path, c) <==> p == path && k == c
    {
      if Below(p, k) == Below(path, c) {
        BelowOnce(p, k, path, c);
      }
    }
  }

  lemma NewLinked(nodes: map<string, TrieNode>, q: string, child: TrieNode, children: seq<TrieNode?>)
    requires PrefixClosed(nodes.Keys) && q !in nodes && NoneOf(children)
    ensures Linked(nodes[q := child], q, children)
  {
    forall k | 0 <= k < ALPHABET
      ensures NodeAt(nodes[q := child], Below(q, k)) == null
    {
      var b := Below(q, k);
      assert b[..|b| - 1] == q;
    }
  }

  // ---- The trie -------------------------------------------------------------------------------

  class FileTrie {
    const root: TrieNode
    /** The node of each path, the record of each file's path, and every object of the trie. */
    ghost var nodes: map<string, TrieNode>
    ghost var records: map<string, FileRecord>
    ghost var repr: set<object>
    /** The directory the trie stands for. */
    ghost var dir: Dir

    /** The nodes form a tree: every path has one node, every node one path, its child
        pointers are the nodes one character below, and a record has its node's path. */
    ghost predicate Valid()
      reads this, repr
    {
      Tree(root, nodes) && Owned(nodes, records, repr) && NodesLinked() && FilesLinked() && RecordsShown()
    }

    ghost predicate NodesLinked()
      reads `nodes, nodes.Values`children
    {
      forall p :: p in nodes ==> Linked(nodes, p, nodes[p].children)
    }

    ghost predicate FilesLinked()
      reads `nodes, `records, nodes.Values`file
    {
      records.Keys <= nodes.Keys && forall p :: p in nodes ==> nodes[p].file == RecordAt(records, p)
    }

    ghost predicate RecordsShown()
      reads `records, `dir, records.Values
    {
      dir.Keys == records.Keys && (forall p :: p in dir ==> Clean(dir[p].name) == p && records[p].View() == dir[p]) &&
      forall p, q :: p in records && q in records && p != q ==> records[p] != records[q]
    }

    constructor ()
      ensures Valid() && fresh(repr) && this !in repr && dir == map[]
    {
      root := new TrieNode();
      new;
      nodes, records, dir, repr := map["" := root], map[], map[], {root};
    }

    lemma ChildIs(p: string, c: nat)
      requires Valid() && p in nodes && c < ALPHABET
      ensures |nodes[p].children| == ALPHABET && nodes[p].children[c] == NodeAt(nodes, Below(p, c))
    {
    }

    lemma IsTree(p: string)
      requires Valid() && (p == "" || p in nodes)
      ensures "" in nodes && nodes[""] == root && PrefixClosed(nodes.Keys)
      ensures nodes[p] in repr && |nodes[p].children| == ALPHABET && forall q :: q in nodes && q != p ==> nodes[q] != nodes[p]
    {
    }

    lemma Parts()
      requires Valid()
      ensures Tree(root, nodes) && Owned(nodes, records, repr) && NodesLinked() && FilesLinked() && RecordsShown()
    {
    }

    lemma Whole()
      requires Tree(root, nodes) && Owned(nodes, records, repr) && NodesLinked() && FilesLinked() && RecordsShown()
      ensures Valid()
    {
    }

    lemma OwnedNow()
      requires Valid()
      ensures nodes.Values <= repr && records.Values <= repr
    {
    }

    lemma IsShown()
      requires Valid()
      ensures dir.Keys == records.Keys <= nodes.Keys
      ensures forall p :: p in nodes ==> nodes[p].file == RecordAt(records, p)
    {
    }

    /** The node of a name, if all of its path exists. */
    method FindNode(name: string) returns (node: TrieNode?)
      requires Valid()
      ensures node == NodeAt(nodes, Clean(name))
    {
      hide Clean, Below, Valid, PrefixClosed;
      node := root;
      var i := 0;
      IsTree("");
      CleanNothing(name);
      while i < |name|
        invariant i <= |name|
        invariant Clean(name[..i]) in nodes && nodes[Clean(name[..i])] == node && node != null
      {
        ghost var path := Clean(name[..i]);
        CleanNext(name, i);
        if AsciiChar(name[i]) {
          var c := name[i] as int;
          ChildIs(path, c);
          if node.children[c] == null {
            PathBroken(nodes.Keys, Clean(name), Clean(name[..i + 1]));
            return null;
          }
          node := node.children[c];
        }
        i := i + 1;
      }
      assert name[..i] == name;
    }

    /** A new node under an existing one. */
    method AddChild(node: TrieNode, ghost path: string, c: nat) returns (child: TrieNode)
      requires Valid() && path in nodes && nodes[path] == node && c < ALPHABET && Below(path, c) !in nodes
      modifies `nodes, `repr, node`children
      ensures Valid() && fresh(child) && repr == old(repr) + {child}
      ensures nodes == old(nodes)[Below(path, c) := child]
    {
      hide Clean, Below, Linked, Tree, Owned, NodesLinked, FilesLinked, RecordsShown;
      Parts();
      child := new TrieNode();
      OwnedWithNode(nodes, records, repr, Below(path, c), child);
      Attach(node, path, c, child);
    }

    method Attach(node: TrieNode, ghost path: string, c: nat, child: TrieNode)
      requires Valid() && path in nodes && nodes[path] == node && c < ALPHABET && Below(path, c) !in nodes
      requires NoneOf(child.children) && child.file == null && child !in nodes.Values
      requires Owned(nodes[Below(path, c) := child], records, repr + {child})
      modifies `nodes, `repr, node`children
      ensures Valid() && nodes == old(nodes)[Below(path, c) := child] && repr == old(repr) + {child}
    {
      hide Clean, Below, Tree, Linked, NoneOf, NodesLinked, FilesLinked, RecordsShown, Owned, Ascii, Valid;
      Parts();
      IsTree(path);
      TreeGrows(root, nodes, path, c, child);
      node.children := node.children[c := child];
      nodes, repr := nodes[Below(path, c) := child], repr + {child};
      NodeAdded(path, c, child);
      FileAdded(path, c, child);
      Whole();
    }

    twostate lemma NodeAdded(new path: string, new c: nat, new child: TrieNode)
      requires old(Tree(root, nodes)) && old(NodesLinked()) && path in old(nodes) && c < ALPHABET && Below(path, c) !in old(nodes)
      requires nodes == old(nodes)[Below(path, c) := child] && NoneOf(child.children)
      requires unchanged((old(nodes).Values - {old(nodes)[path]})`children)
      requires nodes[path].children == old(nodes[path].children)[c := child] && |old(nodes[path].children)| > c
      ensures NodesLinked()
    {
      hide Clean, Below, Linked;
      ghost var was := old(nodes);
      NewLinked(was, Below(path, c), child, child.children);
      forall p | p in was
        ensures Linked(nodes, p, nodes[p].children)
      {
        LinkedStays(was, p, old(nodes[p].children), path, c, child);
      }
    }

    twostate lemma FileAdded(new path: string, new c: nat, new child: TrieNode)
      requires old(FilesLinked()) && c < ALPHABET && Below(path, c) !in old(nodes) && records == old(records)
      requires nodes == old(nodes)[Below(path, c) := child] && child.file == null
      requires unchanged(old(nodes).Values`file)
      ensures FilesLinked()
    {
      hide Below;
    }

    /** The node of a name; the missing part of its path is made. */
    method MakeNode(name: string) returns (node: TrieNode)
      requires Valid()
      modifies `nodes, `repr, nodes.Values
      ensures Valid() && repr >= old(repr) && fresh(repr - old(repr))
      ensures node == NodeAt(nodes, Clean(name))
    {
      hide Clean, Below, Valid, PrefixClosed, Linked;
      node := root;
      var i := 0;
      IsTree("");
      CleanNothing(name);
      while i < |name|
        invariant i <= |name| && Valid() && repr >= old(repr) && fresh(repr - old(repr))
        invariant forall p :: p in nodes ==> fresh(nodes[p]) || nodes[p] in old(nodes).Values
        invariant node == NodeAt(nodes, Clean(name[..i]))
      {
        ghost var path := Clean(name[..i]);
        CleanNext(name, i);
        if AsciiChar(name[i]) {
          var c := name[i] as int;
          ChildIs(path, c);
          var child := node.children[c];
          if child == null {
            child := AddChild(node, path, c);
          }
          node := child;
        }
        i := i + 1;
      }
      assert name[..i] == name;
    }

    /** `search_add_file`. */
    method Add(name: string, server: int, owner: string)
      requires Valid()
      modifies this, repr
      ensures Valid() && fresh(repr - old(repr))
      ensures dir == AddFile(old(dir), name, server, owner)
    {
      hide Clean, Valid;
      OwnedNow();
      var node := MakeNode(name);
      IsTree(Clean(name));
      IsShown();
      if node.file == null {
        PutRecord(name, node, NewRec(name, server, owner));
      }
    }

    /** A new record at an empty node. */
    method PutRecord(name: string, node: TrieNode, r: Rec)
      requires Valid() && node == NodeAt(nodes, Clean(name)) && node.file == null && r.name == name
      modifies this, node
      ensures Valid() && repr >= old(repr) && fresh(repr - old(repr))
      ensures dir == old(dir)[Clean(name) := r]
    {
      hide Clean, FilesLinked, Linked, NodesLinked, Owned, RecordsShown, Tree, Valid;
      ghost var path := Clean(name);
      IsTree(path);
      IsShown();
      Parts();
      var file := new FileRecord(r);
      OwnedWithRecord(nodes, records, repr, path, file);
      node.file := file;
      records, dir, repr := records[path := file], dir[path := r], repr + {file};
      FilePut(path, file);
      RecordPut(path, file);
      Whole();
    }

    twostate lemma FilePut(new path: string, new file: FileRecord)
      requires old(FilesLinked()) && nodes == old(nodes) && path in nodes && records == old(records)[path := file]
      requires unchanged((nodes.Values - {nodes[path]})`file) && nodes[path].file == file && old(Tree(root, nodes))
      ensures FilesLinked()
    {
    }

    twostate lemma RecordPut(new path: string, new file: FileRecord)
      requires old(RecordsShown()) && records == old(records)[path := file] && dir == old(dir)[path := file.View()]
      requires unchanged(old(records).Values) && file !in old(records).Values && Clean(file.name) == path
      ensures RecordsShown()
    {
      hide Clean;
    }

    /** `find_file_record`. */
    method FindRecord(name: string) returns (file: FileRecord?)
      requires Valid()
      ensures Clean(name) in dir <==> Clean(name) in records
      ensures if Clean(name) in dir then file == records[Clean(name)] && dir[Clean(name)] == file.View() else file == null
    {
      hide Clean, Linked, Tree;
      var node := FindNode(name);
      if node == null {
        return null;
      }
      return node.file;
    }

    /** The part of `search_find_file` behind the cache. */
    method FindServer(name: string) returns (server: int)
      requires Valid()
      ensures server == ServerOf(dir, name)
    {
      var file := FindRecord(name);
      server := if file == null then -1 else file.server;
    }

    /** `search_check_permission`. */
    method CheckPermission(name: string, user: string, permission: int) returns (allowed: bool)
      requires Valid()
      ensures allowed <==> Check(dir, name, user, permission)
    {
      hide Clean, Acl.Allows;
      var file := FindRecord(name);
      if file == null {
        return false;
      }
      if file.owner == user {
        return true;
      }
      allowed := Acl.CheckAcl(file.acl, user, permission);
    }

    /** Change one record's list in place. */
    method SetList(file: FileRecord, ghost path: string, acl: seq<Acl.Entry>)
      requires Valid() && path in records && records[path] == file
      modifies `dir, file`acl
      ensures Valid() && dir == old(dir)[path := old(dir)[path].(acl := acl)]
    {
      hide Clean, FilesLinked, Linked, NodesLinked, Owned, RecordsShown, Tree, Valid;
      Parts();
      ListOf(path);
      file.acl := acl;
      dir := dir[path := dir[path].(acl := acl)];
      ListSet(path);
      Whole();
    }

    lemma ListOf(path: string)
      requires Valid() && path in records
      ensures path in dir && records[path].View() == dir[path]
      ensures forall p :: p in records && p != path ==> records[p] != records[path]
    {
    }

    twostate lemma ListSet(path: string)
      requires old(RecordsShown()) && records == old(records) && path in old(dir)
      requires dir == old(dir)[path := records[path].View()] && records[path].name == old(dir)[path].name
      requires unchanged(records.Values - {records[path]})
      ensures RecordsShown()
    {
      hide Clean;
    }

    /** `search_grant_permission`. */
    method Grant(name: string, owner: string, user: string, permission: int) returns (ok: bool)
      requires Valid()
      modifies `dir, records.Values
      ensures Valid()
      ensures var r := GrantFile(old(dir), name, owner, user, permission);
        ok == r.Some? && dir == if r.Some? then r.value else old(dir)
    {
      hide Clean, Acl.Granted, Valid;
      var file := FindRecord(name);
      if file == null || file.owner != owner {
        return false;
      }
      var acl := Acl.Grant(file.acl, user, permission);
      if acl.None? {
        return false;
      }
      SetList(file, Clean(name), acl.value);
      return true;
    }

    /** `search_remove_permission`. */
    method Revoke(name: string, owner: string, user: string) returns (ok: bool)
      requires Valid()
      modifies `dir, records.Values
      ensures Valid()
      ensures var r := RevokeFile(old(dir), name, owner, user);
        ok == r.Some? && dir == if r.Some? then r.value else old(dir)
    {
      hide Clean, Acl.Revoked, Valid;
      var file := FindRecord(name);
      if file == null || file.owner != owner {
        return false;
      }
      var acl := Acl.Revoke(file.acl, user);
      SetList(file, Clean(name), acl);
      return true;
    }

    /** Free a node's record. */
    method DropRecord(node: TrieNode, ghost path: string)
      requires Valid() && path in records && path in nodes && nodes[path] == node
      modifies `records, `dir, node`file
      ensures Valid() && node.file == null && records == old(records) - {path} && dir == old(dir) - {path}
    {
      hide Clean, FilesLinked, Linked, NodesLinked, Owned, RecordsShown, Tree, Valid;
      Parts();
      IsTree(path);
      IsShown();
      OwnedWithoutRecord(nodes, records, repr, path);
      node.file := null;
      records, dir := records - {path}, dir - {path};
      FileDropped(path);
      RecordsDropped(path);
      Whole();
    }

    /** Without one record, at the node that lost it. */
    twostate lemma FileDropped(path: string)
      requires old(FilesLinked()) && nodes == old(nodes) && path in nodes && records == old(records) - {path}
      requires unchanged((nodes.Values - {nodes[path]})`file) && nodes[path].file == null && old(Tree(root, nodes))
      ensures FilesLinked()
    {
    }

    twostate lemma RecordsDropped(path: string)
      requires old(RecordsShown()) && records == old(records) - {path} && dir == old(dir) - {path}
      requires unchanged(old(records).Values)
      ensures RecordsShown()
    {
    }

    /** The walk of `search_delete_file` does not skip characters, it gives up at them. */
    method FindExactly(name: string) returns (node: TrieNode?)
      requires Valid()
      ensures node == NodeAt(nodes, name)
    {
      hide Clean, Below, Valid, PrefixClosed, Linked;
      node := root;
      var i := 0;
      IsTree("");
      NothingYet(name);
      while i < |name|
        invariant i <= |name| && node != null && node == NodeAt(nodes, name[..i])
      {
        ghost var path := name[..i];
        if !AsciiChar(name[i]) {
          NotAscii(name, i);
          return null;
        }
        var c := name[i] as int;
        ExactNext(name, i);
        ChildIs(path, c);
        if node.children[c] == null {
          PathBroken(nodes.Keys, name, name[..i + 1]);
          return null;
        }
        node := node.children[c];
        i := i + 1;
      }
      assert name[..i] == name;
    }

    lemma NotAscii(name: string, i: nat)
      requires Valid() && i < |name| && !AsciiChar(name[i])
      ensures name !in nodes
    {
    }

    /** `search_delete_file`. */
    method Delete(name: string, user: string) returns (code: int)
      requires Valid()
      modifies `records, `dir, nodes.Values
      ensures Valid() && (dir, code) == DeleteFile(old(dir), name, user)
    {
      hide Clean, Linked;
      var node := FindExactly(name);
      if node == null {
        assert name !in dir;
        return -1;
      }
      if node.file == null {
        return -1;
      }
      if node.file.owner != user {
        return -2;
      }
      code := node.file.server;
      DropRecord(node, name);
    }

    /** The old record goes and the new one takes its place. */
    method ReplaceRecord(name: string, node: TrieNode, r: Rec)
      requires Valid() && node == NodeAt(nodes, Clean(name)) && node.file != null && r.name == name
      modifies this, node
      ensures Valid() && repr >= old(repr) && fresh(repr - old(repr))
      ensures dir == old(dir)[Clean(name) := r]
    {
      hide Clean, Valid;
      IsShown();
      DropRecord(node, Clean(name));
      PutRecord(name, node, r);
    }

    /** `search_rebuild_add_file`. */
    method RebuildFile(server: int, m: Meta)
      requires Valid()
      modifies this, repr
      ensures Valid() && fresh(repr - old(repr))
      ensures dir == Rebuild(old(dir), server, m)
    {
      hide Clean, Valid;
      OwnedNow();
      var node := MakeNode(m.name);
      ghost var path := Clean(m.name);
      IsTree(path);
      IsShown();
      if node.file == null {
        PutRecord(m.name, node, RecOfMeta(server, m));
        return;
      }
      ListOf(path);
      if node.file.server == server {
        ReplaceRecord(m.name, node, RecOfMeta(server, m));
      }
    }
  }
}
