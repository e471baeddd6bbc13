/** The name server's file directory as a map from path to record, and what permission
    checks answer over whole histories. */
module Directory {
  import opened Text
  import Acl
  import opened Metadata

  const ALPHABET: nat := 128

  datatype Rec = Rec(
    name: string, owner: string, server: int, folder: string, words: int, chars: int,
    created: int, modified: int, accessed: int, accessedBy: string, acl: seq<Acl.Entry>)

  type Dir = map<string, Rec>

  predicate AsciiChar(c: char) {
    c as int < ALPHABET
  }

  predicate Ascii(name: string) {
    forall k | 0 <= k < |name| :: AsciiChar(name[k])
  }

  /** The path of a name: find and add skip the characters the trie has no child for. */
  function Clean(name: string): (path: string)
    ensures Ascii(path)
  {
    if name == "" then ""
    else (if AsciiChar(name[0]) then [name[0]] else "") + Clean(name[1..])
  }

  lemma {:induction false} CleanSnoc(name: string, c: char)
    ensures Clean(name + [c]) == Clean(name) + if AsciiChar(c) then [c] else ""
  {
    if name != "" {
      assert (name + [c])[1..] == name[1..] + [c];
      CleanSnoc(name[1..], c);
    } else {
      assert [c][1..] == "";
    }
  }

  lemma {:induction false} CleanAscii(name: string)
    requires Ascii(name)
    ensures Clean(name) == name
  {
    if name != "" {
      CleanAscii(name[1..]);
    }
  }

  // ---- Operations -----------------------------------------------------------------------------

  function NewRec(name: string, server: int, owner: string): Rec {
    Rec(name, owner, server, "", 0, 0, 0, 0, 0, "", [])
  }

  /** The record a registering server's row becomes; the folder is not sent. */
  function RecOfMeta(server: int, m: Meta): Rec {
    Rec(m.name, m.owner, server, "", m.words, m.size, m.created, m.modified, m.accessed, m.accessedBy, m.acl)
  }

  function AddFile(dir: Dir, name: string, server: int, owner: string): Dir {
    if Clean(name) in dir then dir else dir[Clean(name) := NewRec(name, server, owner)]
  }

  /** The server of a file, or -1. */
  function ServerOf(dir: Dir, name: string): int {
    if Clean(name) in dir then dir[Clean(name)].server else -1
  }

  /** Deletion by the owner; -1 is not found, -2 access denied. It does not skip the
      characters find and add skip. */
  function DeleteFile(dir: Dir, name: string, user: string): (Dir, int) {
    if !Ascii(name) || name !in dir then (dir, -1)
    else if dir[name].owner != user then (dir, -2)
    else (dir - {name}, dir[name].server)
  }

  function GrantFile(dir: Dir, name: string, owner: string, user: string, permission: int): Option<Dir> {
    var path := Clean(name);
    if path !in dir || dir[path].owner != owner then None
    else
      var acl := Acl.Granted(dir[path].acl, user, permission);
      if acl.None? then None else Some(dir[path := dir[path].(acl := acl.value)])
  }

  function RevokeFile(dir: Dir, name: string, owner: string, user: string): Option<Dir> {
    var path := Clean(name);
    if path !in dir || dir[path].owner != owner then None
    else Some(dir[path := dir[path].(acl := Acl.Revoked(dir[path].acl, user))])
  }

  /** Drop the records of a dead server's slot. */
  function Purge(dir: Dir, server: int): Dir {
    map path | path in dir && dir[path].server != server :: dir[path]
  }

  /** The cached names a purge invalidates: those of the records it drops. */
  function PurgedNames(dir: Dir, server: int): set<string> {
    set path | path in dir && dir[path].server == server :: dir[path].name
  }

  /** A registering server's file: new or refreshed, refused when another slot has it. */
  function Rebuild(dir: Dir, server: int, m: Meta): Dir {
    var path := Clean(m.name);
    if path in dir && dir[path].server != server then dir else dir[path := RecOfMeta(server, m)]
  }

  /** `search_check_permission`. */
  predicate Check(dir: Dir, name: string, user: string, permission: int) {
    var path := Clean(name);
    path in dir && (dir[path].owner == user || Acl.Allows(dir[path].acl, user, permission))
  }

  // ---- Permission history ---------------------------------------------------------------------

  datatype Op =
    | Add(name: string, server: int, owner: string)
    | Delete(name: string, user: string)
    | Grant(name: string, owner: string, user: string, permission: int)
    | Revoke(name: string, owner: string, user: string)
    | PurgeServer(server: int)
    | RebuildFile(server: int, meta: Meta)

  function Apply(dir: Dir, op: Op): Dir {
    match op
    case Add(name, server, owner) => AddFile(dir, name, server, owner)
    case Delete(name, user) => DeleteFile(dir, name, user).0
    case Grant(name, owner, user, permission) =>
      var r := GrantFile(dir, name, owner, user, permission);
      if r.Some? then r.value else dir
    case Revoke(name, owner, user) =>
      var r := RevokeFile(dir, name, owner, user);
      if r.Some? then r.value else dir
    case PurgeServer(server) => Purge(dir, server)
    case RebuildFile(server, meta) => Rebuild(dir, server, meta)
  }

  // ---- Who may do what ------------------------------------------------------------------------

  /** A grant takes effect exactly if the file's owner sends it and the list has the user or
      room; then that user has that permission, and nothing else of the directory changes. */
  lemma GrantsExactly(dir: Dir, name: string, sender: string, user: string, permission: int)
    requires DirValid(dir)
    ensures var path := Clean(name);
      var r := GrantFile(dir, name, sender, user, permission);
      (r.Some? <==> path in dir && dir[path].owner == sender && RoomFor(dir[path].acl, user)) &&
      Apply(dir, Op.Grant(name, sender, user, permission)) == (if r.Some? then r.value else dir) &&
      (r.Some? ==>
         r.value.Keys == dir.Keys && (forall p :: p in dir && p != path ==> r.value[p] == dir[p]) &&
         r.value[path] == dir[path].(acl := r.value[path].acl) &&
         forall u :: Acl.PermissionOf(r.value[path].acl, u) ==
                     if u == user then Some(permission) else Acl.PermissionOf(dir[path].acl, u))
  {
    var path := Clean(name);
    if path in dir && dir[path].owner == sender {
      RoomByEntry(dir[path].acl, user);
      forall u
        ensures var acl := Acl.Granted(dir[path].acl, user, permission);
          (acl.None? <==> !RoomFor(dir[path].acl, user)) &&
          (acl.Some? ==> Acl.PermissionOf(acl.value, u) ==
                         if u == user then Some(permission) else Acl.PermissionOf(dir[path].acl, u))
      {
        Acl.GrantedIsUpdate(dir[path].acl, user, permission, u);
      }
      assert RoomFor(dir[path].acl, user) <==> Acl.Granted(dir[path].acl, user, permission).Some?;
    }
  }

  lemma RoomByEntry(acl: seq<Acl.Entry>, user: string)
    requires Acl.Valid(acl)
    ensures RoomFor(acl, user) <==> |acl| < Acl.MAX_ENTRIES || Acl.PermissionOf(acl, user).Some?
  {
    var k := Acl.IndexOf(acl, user);
    if k < |acl| {
      assert acl[k] in acl;
    }
  }

  /** A removal takes effect exactly if the file's owner sends it; then that user has no
      permission by the list, and nothing else of the directory changes. */
  lemma RevokesExactly(dir: Dir, name: string, sender: string, user: string)
    requires DirValid(dir)
    ensures var path := Clean(name);
      var r := RevokeFile(dir, name, sender, user);
      (r.Some? <==> path in dir && dir[path].owner == sender) &&
      Apply(dir, Op.Revoke(name, sender, user)) == (if r.Some? then r.value else dir) &&
      (r.Some? ==>
         r.value.Keys == dir.Keys && (forall p :: p in dir && p != path ==> r.value[p] == dir[p]) &&
         r.value[path] == dir[path].(acl := r.value[path].acl) &&
         forall u :: Acl.PermissionOf(r.value[path].acl, u) ==
                     if u == user then None else Acl.PermissionOf(dir[path].acl, u))
  {
    var path := Clean(name);
    if path in dir && dir[path].owner == sender {
      forall u
        ensures Acl.PermissionOf(Acl.Revoked(dir[path].acl, user), u) ==
                if u == user then None else Acl.PermissionOf(dir[path].acl, u)
      {
        Acl.RevokedIsRemoval(dir[path].acl, user, u);
      }
    }
  }

  /** A deletion drops a path exactly if the file's owner sends it under the path itself, and
      drops no other. The reply tells a missing file from a refused sender. */
  lemma DeletesExactly(dir: Dir, name: string, sender: string)
    requires forall path :: path in dir ==> Ascii(path) && dir[path].server >= 0
    ensures var (dir', reply) := DeleteFile(dir, name, sender);
      Apply(dir, Op.Delete(name, sender)) == dir' &&
      (forall path :: path in dir' <==> path in dir && !(path == name && dir[path].owner == sender)) &&
      (forall path :: path in dir' ==> dir'[path] == dir[path]) &&
      (reply == -1 <==> name !in dir) && (reply == -2 <==> name in dir && dir[name].owner != sender) &&
      (reply >= 0 ==> name in dir && reply == dir[name].server)
  {
  }

  /** Nobody's permission changes and no file goes but by its owner's request. */
  lemma OnlyOwnerChanges(dir: Dir, op: Op, path: string, user: string)
    requires DirValid(dir) && (op.Grant? || op.Revoke? || op.Delete?) && path in dir
    requires path !in Apply(dir, op) || Acl.PermissionOf(Apply(dir, op)[path].acl, user) != Acl.PermissionOf(dir[path].acl, user)
    ensures match op
      case Grant(name, sender, target, _) => Clean(name) == path && sender == dir[path].owner && target == user
      case Revoke(name, sender, target) => Clean(name) == path && sender == dir[path].owner && target == user
      case Delete(name, sender) => name == path && sender == dir[path].owner
      case _ => false
  {
    match op
    case Grant(name, sender, target, permission) => GrantsExactly(dir, name, sender, target, permission);
    case Revoke(name, sender, target) => RevokesExactly(dir, name, sender, target);
    case _ =>
  }

  /** A new file has its creator as owner and is on the given server; its creator passes every
      check and nobody else does. A file that is there already stays as it is. */
  lemma AddsExactly(dir: Dir, name: string, server: int, creator: string, user: string, permission: int)
    ensures var path, dir' := Clean(name), AddFile(dir, name, server, creator);
      dir' == Apply(dir, Op.Add(name, server, creator)) && path in dir' && (path in dir ==> dir' == dir) &&
      (forall p :: p in dir' && p != path <==> p in dir && p != path) &&
      (forall p :: p in dir ==> dir'[p] == dir[p]) &&
      (path !in dir ==>
         dir'[path].name == name && dir'[path].owner == creator && dir'[path].server == server && dir'[path].folder == "" &&
         (Check(dir', name, user, permission) <==> user == creator))
  {
    hide Clean;
  }

  /** A dead slot's records go, all others stay. */
  lemma PurgesExactly(dir: Dir, server: int)
    ensures var dir' := Purge(dir, server);
      dir' == Apply(dir, PurgeServer(server)) &&
      (forall path :: path in dir' <==> path in dir && dir[path].server != server) &&
      forall path :: path in dir' ==> dir'[path] == dir[path]
  {
  }

  /** A registering server's file is taken over, field by field, if it is new or in the same
      slot; a file in another slot stays as it is, and so does every other file. */
  lemma RebuildsExactly(dir: Dir, server: int, m: Meta)
    ensures var path, dir' := Clean(m.name), Rebuild(dir, server, m);
      dir' == Apply(dir, RebuildFile(server, m)) && path in dir' &&
      (forall p :: p in dir' && p != path <==> p in dir && p != path) &&
      (forall p :: p in dir && p != path ==> dir'[p] == dir[p]) &&
      if path in dir && dir[path].server != server then dir' == dir
      else
        var r := dir'[path];
        r.server == server && r.name == m.name && r.owner == m.owner && r.acl == m.acl && r.chars == m.size && r.words == m.words &&
        r.created == m.created && r.modified == m.modified && r.accessed == m.accessed && r.accessedBy == m.accessedBy
  {
    hide Clean;
  }

  function Replay(ops: seq<Op>): Dir {
    if ops == [] then map[] else Apply(Replay(ops[..|ops| - 1]), ops[|ops| - 1])
  }

  /** The list has the user, or room for one more. */
  predicate RoomFor(acl: seq<Acl.Entry>, user: string) {
    |acl| < 10 || exists e :: e in acl && e.user == user
  }

  /** What the history says last about a user's permission on the file at `path`: the last
      grant by the owner that had room, unless a removal by the owner, or the end or a new
      beginning of the file, came after it; a registration starts from the list the storage
      server kept. */
  function LastWord(ops: seq<Op>, path: string, user: string): Option<int> {
    if ops == [] then None
    else
      var before, op := ops[..|ops| - 1], ops[|ops| - 1];
      var dir := Replay(before);
      match op
      case Add(name, _, _) =>
        if Clean(name) == path && path !in dir then None else LastWord(before, path, user)
      case Delete(name, _) =>
        if name == path && path in dir && dir[path].owner == op.user then None else LastWord(before, path, user)
      case Grant(name, owner, target, permission) =>
        if Clean(name) == path && target == user && path in dir && dir[path].owner == owner && RoomFor(dir[path].acl, user)
        then Some(permission) else LastWord(before, path, user)
      case Revoke(name, owner, target) =>
        if Clean(name) == path && target == user && path in dir && dir[path].owner == owner
        then None else LastWord(before, path, user)
      case PurgeServer(server) =>
        if path in dir && dir[path].server == server then None else LastWord(before, path, user)
      case RebuildFile(server, meta) =>
        if Clean(meta.name) == path && (path !in dir || dir[path].server == server)
        then Acl.PermissionOf(meta.acl, user) else LastWord(before, path, user)
  }

  /** Registering servers send well-formed lists. */
  predicate ListsValid(ops: seq<Op>) {
    forall op :: op in ops && op.RebuildFile? ==> Acl.Valid(op.meta.acl)
  }

  ghost predicate DirValid(dir: Dir) {
    forall path :: path in dir ==> Acl.Valid(dir[path].acl)
  }

  /** Every path there ever is has characters of the trie's alphabet only. */
  lemma {:induction false} PathsAreAscii(ops: seq<Op>)
    ensures forall path :: path in Replay(ops) ==> Ascii(path)
  {
    hide Ascii, Acl.Granted, Acl.Revoked;
    if ops != [] {
      PathsAreAscii(ops[..|ops| - 1]);
    }
  }

  lemma {:induction false} HistoryOfAcl(ops: seq<Op>, path: string, user: string)
    requires ListsValid(ops)
    ensures DirValid(Replay(ops))
    ensures path in Replay(ops) ==> Acl.PermissionOf(Replay(ops)[path].acl, user) == LastWord(ops, path, user)
    ensures path !in Replay(ops) ==> LastWord(ops, path, user) == None
  {
    if ops != [] {
      var before, op := ops[..|ops| - 1], ops[|ops| - 1];
      assert forall o :: o in before ==> o in ops;
      assert op in ops;
      HistoryOfAcl(before, path, user);
      PathsAreAscii(before);
      StepOfAcl(Replay(before), op, path, user);
    }
  }

  /** One operation changes one user's permission on one file, or drops or replaces files. */
  lemma StepOfAcl(dir: Dir, op: Op, path: string, user: string)
    requires DirValid(dir) && (op.RebuildFile? ==> Acl.Valid(op.meta.acl))
    ensures DirValid(Apply(dir, op))
    ensures path in dir && path in Apply(dir, op) ==>
      var p, p' := Acl.PermissionOf(dir[path].acl, user), Acl.PermissionOf(Apply(dir, op)[path].acl, user);
      match op
      case Grant(name, owner, target, permission) =>
        p' == if Clean(name) == path && target == user && dir[path].owner == owner && RoomFor(dir[path].acl, user)
              then Some(permission) else p
      case Revoke(name, owner, target) =>
        p' == if Clean(name) == path && target == user && dir[path].owner == owner then None else p
      case RebuildFile(server, meta) =>
        p' == if Clean(meta.name) == path && dir[path].server == server then Acl.PermissionOf(meta.acl, user) else p
      case _ => p' == p
  {
    match op
    case Grant(name, owner, target, permission) =>
      GrantsExactly(dir, name, owner, target, permission);
      if GrantFile(dir, name, owner, target, permission).Some? {
        var f := Clean(name);
        Acl.GrantedIsUpdate(dir[f].acl, target, permission, user);
      }
    case Revoke(name, owner, target) =>
      if RevokeFile(dir, name, owner, target).Some? {
        Acl.RevokedIsRemoval(dir[Clean(name)].acl, target, user);
      }
    case _ =>
  }

  /** Permission history: after any sequence of operations a check succeeds exactly when the
      file exists and the user owns it or the history last gave at least that permission. */
  lemma PermissionHistory(ops: seq<Op>, name: string, user: string, permission: int)
    requires ListsValid(ops)
    ensures var dir, path := Replay(ops), Clean(name); var last := LastWord(ops, path, user);
      Check(dir, name, user, permission) <==>
      path in dir && (dir[path].owner == user || (last.Some? && last.value >= permission))
  {
    HistoryOfAcl(ops, Clean(name), user);
    if Clean(name) in Replay(ops) {
      Acl.AllowsByEntry(Replay(ops)[Clean(name)].acl, user, permission);
    }
  }
}
