/** The access lists the name server holds in memory and those the storage servers keep on
    disk: exactly which steps leave them equal. */
module Mirror {
  import opened Text
  import opened Metadata
  import opened Directory
  import opened Registry
  import opened MetaStore
  import opened NameServer
  import opened Coherence
  import Acl
  import Cache

  // ---- Tables that survive their text form ----------------------------------------------------

  predicate RowOk(m: Meta) {
    Fits(m) && Separable(m)
  }

  ghost predicate TableOk(t: seq<Meta>, ns: iset<string>) {
    |t| <= MAX_FILES && UniqueNames(t) && forall k | 0 <= k < |t| :: RowOk(t[k]) && t[k].name in ns
  }

  lemma AddOk(t: seq<Meta>, ns: iset<string>, m: Meta)
    requires TableOk(t, ns) && RowOk(m) && m.name in ns
    ensures TableOk(AddRow(t, m), ns)
  {
    hide RowOk;
    AddRowSets(t, m, m.name);
  }

  lemma PutOk(t: seq<Meta>, ns: iset<string>, i: nat, m: Meta)
    requires TableOk(t, ns) && i < |t| && RowOk(m) && m.name == t[i].name
    ensures TableOk(t[i := m], ns)
  {
    hide RowOk;
    PutRowSets(t, i, m, m.name);
  }

  lemma RemoveOk(t: seq<Meta>, ns: iset<string>, name: string)
    requires TableOk(t, ns)
    ensures TableOk(RemoveRow(t, name), ns)
  {
    hide RowOk;
    RemoveRowDrops(t, name, name);
  }

  lemma GrantedFits(acl: seq<Acl.Entry>, e: Acl.Entry)
    requires |acl| <= Acl.MAX_ENTRIES && EntryFits(e) && PlainUser(e.user)
    requires forall x :: x in acl ==> EntryFits(x) && PlainUser(x.user)
    ensures var r := Acl.Granted(acl, e.user, e.permission);
      r.Some? ==> |r.value| <= Acl.MAX_ENTRIES && forall x :: x in r.value ==> EntryFits(x) && PlainUser(x.user)
  {
    hide PlainUser;
  }

  lemma RevokedFits(acl: seq<Acl.Entry>, user: string)
    requires forall x :: x in acl ==> EntryFits(x) && PlainUser(x.user)
    ensures |Acl.Revoked(acl, user)| <= |acl|
    ensures forall x :: x in Acl.Revoked(acl, user) ==> EntryFits(x) && PlainUser(x.user)
  {
    hide PlainUser, EntryFits;
  }

  // ---- The mirror -----------------------------------------------------------------------------

  predicate Same(rec: Rec, m: Meta) {
    rec.owner == m.owner && rec.acl == m.acl
  }

  /** Slot `i` has a record under exactly this name. */
  predicate InSlot(dir: Dir, i: int, name: string) {
    Clean(name) in dir && dir[Clean(name)].server == i && dir[Clean(name)].name == name
  }

  /** The records of slot `i` are the rows of its table, under the names they were created
      with, and their owners and lists are equal. */
  ghost predicate Mirrors(dir: Dir, i: int, t: seq<Meta>) {
    (forall path :: path in dir && dir[path].server == i ==>
       Row(t, dir[path].name).Some? && Same(dir[path], Row(t, dir[path].name).value)) &&
    forall name :: Row(t, name).Some? ==> InSlot(dir, i, name)
  }

  ghost predicate TablesOk(tables: map<int, seq<Meta>>, ns: iset<string>) {
    forall server :: server in tables ==> TableOk(tables[server], ns)
  }

  /** No two slots hold one storage server or one socket. */
  ghost predicate Apart(s: State)
    requires Shape(s)
  {
    forall i, j | 0 <= i < j < MAX_SERVERS && s.holder[i].Some? && s.holder[j].Some? ::
      s.holder[i] != s.holder[j] && s.slots[i].fd != s.slots[j].fd
  }

  ghost predicate AllMirror(s: State)
    requires Shape(s)
  {
    forall i | 0 <= i < MAX_SERVERS && s.holder[i].Some? :: Mirrors(s.dir, i, TableAt(s, i))
  }

  ghost predicate Mirrored(s: State, ns: iset<string>)
    requires Shape(s)
  {
    Coherent(s, ns) && SlotsSafe(s) && TablesOk(s.tables, ns) && Apart(s) && AllMirror(s)
  }

  // ---- What one part of a step does to the mirror of one slot ---------------------------------

  lemma ElsewhereMirrors(dir: Dir, dir': Dir, i: int, t: seq<Meta>, name: string)
    requires Mirrors(dir, i, t)
    requires forall path | path != name :: (path in dir <==> path in dir') && (path in dir ==> dir'[path] == dir[path])
    requires (name in dir ==> dir[name].server != i) && (name in dir' ==> dir'[name].server != i)
    ensures Mirrors(dir', i, t)
  {
    hide Row, Same, Clean;
  }

  lemma CreatedMirrors(dir: Dir, i: nat, t: seq<Meta>, name: string, user: string, now: int)
    requires UniqueNames(t) && Mirrors(dir, i, t) && Clean(name) !in dir && |t| < MAX_FILES
    ensures Mirrors(dir[Clean(name) := NewRec(name, i, user)], i, SetOwner(AddRow(t, NewRow(name, 0, 0, now)), name, user))
  {
    hide Clean;
    var m := NewRow(name, 0, 0, now);
    assert Row(t, name).None?;
    var t1 := AddRow(t, m);
    assert t1 == t + [m];
    AddRowSets(t, m, name);
    RowOfIs(t1, |t|);
    var t2 := SetOwner(t1, name, user);
    forall n
      ensures Row(t2, n) == if n == name then Some(m.(owner := user)) else Row(t, n)
    {
      AddRowSets(t, m, n);
      PutRowSets(t1, |t|, m.(owner := user), n);
    }
    AddedRow(dir, i, t, NewRec(name, i, user), t2, m.(owner := user));
  }

  /** A new record and its new row. */
  lemma AddedRow(dir: Dir, i: nat, t: seq<Meta>, rec: Rec, t': seq<Meta>, m: Meta)
    requires Mirrors(dir, i, t) && Clean(rec.name) !in dir && rec.server == i && rec.name == m.name && Same(rec, m)
    requires forall n :: Row(t', n) == if n == m.name then Some(m) else Row(t, n)
    ensures Mirrors(dir[Clean(rec.name) := rec], i, t')
  {
    hide Row, Same, Clean;
  }

  /** A record goes under its own name, and its row with it. */
  lemma DeletedMirrors(dir: Dir, ns: iset<string>, i: nat, t: seq<Meta>, name: string)
    requires UniqueNames(t) && Named(dir, ns) && Mirrors(dir, i, t) && Clean(name) == name
    requires name in dir && dir[name].name == name
    ensures Mirrors(dir - {name}, i, RemoveRow(t, name))
  {
    hide Row, Same, RemoveRow, Clean;
    forall n
      ensures Row(RemoveRow(t, name), n) == if n == name then None else Row(t, n)
    {
      RemoveRowDrops(t, name, n);
    }
  }

  /** A record that goes under another name leaves its row behind. */
  lemma DeletedUnseen(dir: Dir, i: nat, t: seq<Meta>, name: string)
    requires UniqueNames(t) && Mirrors(dir, i, t) && name in dir && dir[name].server == i
    requires Clean(dir[name].name) == name && dir[name].name != name
    ensures !Mirrors(dir - {name}, i, RemoveRow(t, name))
  {
    hide Row, Same, RemoveRow, Clean;
    RemoveRowDrops(t, name, dir[name].name);
  }

  /** One record and its row change together. */
  lemma ChangedMirrors(dir: Dir, ns: iset<string>, i: nat, t: seq<Meta>, path: string, rec: Rec, m: Meta)
    requires UniqueNames(t) && Named(dir, ns) && Mirrors(dir, i, t) && path in dir && dir[path].server == i == rec.server
    requires rec.name == m.name == dir[path].name && Same(rec, m)
    ensures RowOf(t, m.name) < |t| && Mirrors(dir[path := rec], i, t[RowOf(t, m.name) := m])
  {
    hide RowOf, Same, Clean;
    assert Row(t, m.name).Some?;
    forall n
      ensures Row(t[RowOf(t, m.name) := m], n) == if n == m.name then Some(m) else Row(t, n)
    {
      PutRowSets(t, RowOf(t, m.name), m, n);
    }
    ChangedRow(dir, ns, i, t, path, rec, t[RowOf(t, m.name) := m], m);
  }

  lemma ChangedRow(dir: Dir, ns: iset<string>, i: nat, t: seq<Meta>, path: string, rec: Rec, t': seq<Meta>, m: Meta)
    requires Named(dir, ns) && Mirrors(dir, i, t) && path in dir && dir[path].server == i == rec.server
    requires rec.name == m.name == dir[path].name && Same(rec, m)
    requires forall n :: Row(t', n) == if n == m.name then Some(m) else Row(t, n)
    ensures Mirrors(dir[path := rec], i, t')
  {
    hide Row, Same, Clean;
  }

  lemma PurgedMirrors(dir: Dir, gone: int, i: int, t: seq<Meta>)
    requires Mirrors(dir, i, t) && gone != i
    ensures Mirrors(Purge(dir, gone), i, t)
  {
    hide Row, Same, Clean;
  }

  ghost predicate NoConflict(dir: Dir, t: seq<Meta>) {
    forall k | 0 <= k < |t| :: Clean(t[k].name) !in dir
  }

  lemma RebuiltOne(dir: Dir, i: nat, t: seq<Meta>, m: Meta)
    requires UniqueNames(t + [m]) && |t| < MAX_FILES && Mirrors(dir, i, t) && Clean(m.name) !in dir
    ensures Rebuild(dir, i, m) == dir[Clean(m.name) := RecOfMeta(i, m)]
    ensures Mirrors(Rebuild(dir, i, m), i, t + [m])
  {
    hide Clean, RowOf;
    NewLast(t, m);
    assert AddRow(t, m) == t + [m];
    forall n
      ensures Row(t + [m], n) == if n == m.name then Some(m) else Row(t, n)
    {
      AddRowSets(t, m, n);
    }
    AddedRow(dir, i, t, RecOfMeta(i, m), t + [m], m);
  }

  lemma NewLast(t: seq<Meta>, m: Meta)
    requires UniqueNames(t + [m])
    ensures UniqueNames(t) && RowOf(t, m.name) == |t| && Row(t, m.name).None?
  {
    var t' := t + [m];
    assert t'[|t|] == m;
    assert forall j | 0 <= j < |t| :: t'[j] == t[j] && t'[j].name != t'[|t|].name;
  }

  /** Names over which no two lead to one path have their own paths in a table. */
  lemma OwnPath(t: seq<Meta>, ns: iset<string>, m: Meta)
    requires OneSpelling(ns) && UniqueNames(t + [m]) && forall k | 0 <= k < |t + [m]| :: (t + [m])[k].name in ns
    ensures Clean(m.name) !in PathsOf(t)
  {
    hide Clean;
    forall x | x in t
      ensures Clean(x.name) != Clean(m.name)
    {
      var k :| 0 <= k < |t| && t[k] == x;
      assert (t + [m])[k] == x && (t + [m])[|t|] == m;
    }
  }

  /** A registration without conflicts adds exactly the table's rows. */
  lemma {:induction false} RebuiltMirrors(dir: Dir, ns: iset<string>, i: nat, t: seq<Meta>)
    requires OneSpelling(ns) && TableOk(t, ns) && NoConflict(dir, t)
    requires forall path :: path in dir ==> dir[path].server != i
    ensures Mirrors(RebuildAll(dir, i, t), i, t)
    ensures forall path :: path in dir ==> path in RebuildAll(dir, i, t) && RebuildAll(dir, i, t)[path] == dir[path]
    ensures forall path :: path in RebuildAll(dir, i, t) ==> path in dir || RebuildAll(dir, i, t)[path].server == i
  {
    hide RowOk, Clean, Mirrors, Rebuild, OneSpelling, PathsOf;
    if t == [] {
      NothingMirrors(dir, i);
    } else {
      var before, m := t[..|t| - 1], t[|t| - 1];
      assert t == before + [m];
      RebuiltMirrors(dir, ns, i, before);
      OwnPath(before, ns, m);
      RebuiltServers(dir, i, before);
      RebuiltOne(RebuildAll(dir, i, before), i, before, m);
    }
  }

  lemma {:induction false} RebuiltRecords(dir: Dir, ns: iset<string>, i: nat, t: seq<Meta>)
    requires OneSpelling(ns) && TableOk(t, ns) && NoConflict(dir, t)
    ensures forall m :: m in t ==> Clean(m.name) in RebuildAll(dir, i, t) && RebuildAll(dir, i, t)[Clean(m.name)] == RecOfMeta(i, m)
  {
    hide RowOk, Clean, OneSpelling, PathsOf, RecOfMeta;
    if t != [] {
      var before, m := t[..|t| - 1], t[|t| - 1];
      assert t == before + [m];
      RebuiltRecords(dir, ns, i, before);
      OwnPath(before, ns, m);
      RebuiltServers(dir, i, before);
      LastRebuilt(dir, i, before, m);
    }
  }

  lemma LastRebuilt(dir: Dir, i: nat, before: seq<Meta>, m: Meta)
    requires Clean(m.name) !in PathsOf(before) && Clean(m.name) !in dir
    requires forall x :: x in before ==>
      Clean(x.name) in RebuildAll(dir, i, before) && RebuildAll(dir, i, before)[Clean(x.name)] == RecOfMeta(i, x)
    ensures var dir' := Rebuild(RebuildAll(dir, i, before), i, m);
      forall x :: x in before + [m] ==> Clean(x.name) in dir' && dir'[Clean(x.name)] == RecOfMeta(i, x)
  {
    hide Clean, RecOfMeta, RebuildAll;
    RebuiltServers(dir, i, before);
    var dir' := Rebuild(RebuildAll(dir, i, before), i, m);
    forall x | x in before + [m]
      ensures Clean(x.name) in dir' && dir'[Clean(x.name)] == RecOfMeta(i, x)
    {
      if x in before {
        assert Clean(x.name) in PathsOf(before);
      }
    }
  }

  /** After a registration without conflicts each row's record is the row, field by field:
      the size in characters, the words, the three times, the last user, owner and list. */
  lemma RegisteredRecords(dir: Dir, ns: iset<string>, i: nat, t: seq<Meta>, k: nat)
    requires OneSpelling(ns) && TableOk(t, ns) && NoConflict(dir, t) && k < |t|
    ensures var m, dir' := t[k], RebuildAll(dir, i, t);
      Clean(m.name) in dir' &&
      var r := dir'[Clean(m.name)];
      r.name == m.name && r.server == i && r.chars == m.size && r.words == m.words && r.created == m.created &&
      r.modified == m.modified && r.accessed == m.accessed && r.accessedBy == m.accessedBy && r.owner == m.owner &&
      r.acl == m.acl
  {
    hide Clean, RebuildAll, OneSpelling, TableOk, NoConflict;
    RebuiltRecords(dir, ns, i, t);
    assert t[k] in t;
  }

  lemma NothingMirrors(dir: Dir, i: nat)
    requires forall path :: path in dir ==> dir[path].server != i
    ensures Mirrors(dir, i, [])
  {
  }

  /** A table that is fit to be kept comes back from its text unchanged. */
  lemma ReloadedIsTable(s: State, ns: iset<string>, server: int)
    requires TablesOk(s.tables, ns)
    ensures TableOk(TableOf(s, server), ns) && Reloaded(s, server) == TableOf(s, server)
  {
    hide Fits, Separable, Save, Load;
    RoundTripExactly(TableOf(s, server));
  }

  // ---- One step -------------------------------------------------------------------------------

  /** The other slots mirror their tables. */
  ghost predicate OthersMirror(s: State, i: nat)
    requires Shape(s)
  {
    forall j | 0 <= j < MAX_SERVERS && s.holder[j].Some? && j != i :: Mirrors(s.dir, j, TableAt(s, j))
  }

  /** Changing one table, after the directory, completes all mirrors. */
  lemma WithTableMirrors(s: State, i: nat, t: seq<Meta>)
    requires Shape(s) && i < MAX_SERVERS && s.holder[i].Some? && Apart(s) && OthersMirror(s, i)
    ensures AllMirror(WithTable(s, i, t)) <==> Mirrors(s.dir, i, t)
  {
    hide Mirrors;
    var s' := WithTable(s, i, t);
    forall j | 0 <= j < MAX_SERVERS && s.holder[j].Some?
      ensures TableAt(s', j) == if j == i then t else TableAt(s, j)
    {
    }
  }

  lemma ElsewhereAllMirror(s: State, i: nat, dir: Dir, name: string)
    requires Shape(s) && AllMirror(s)
    requires forall path | path != name :: (path in s.dir <==> path in dir) && (path in s.dir ==> dir[path] == s.dir[path])
    requires (name in s.dir ==> s.dir[name].server == i) && (name in dir ==> dir[name].server == i)
    ensures OthersMirror(s.(dir := dir), i)
  {
    hide Mirrors;
    forall j | 0 <= j < MAX_SERVERS && s.holder[j].Some? && j != i
      ensures Mirrors(dir, j, TableAt(s, j))
    {
      ElsewhereMirrors(s.dir, dir, j, TableAt(s, j), name);
    }
  }

  /** Freeing a slot drops its mirror and no other. */
  lemma RemovedMirrors(s: State, fd: int)
    requires Shape(s) && SlotsSafe(s) && AllMirror(s)
    ensures AllMirror(RemoveServer(s, fd))
  {
    hide Mirrors, Purge, PurgedNames;
    var s', i := RemoveServer(s, fd), SlotOfSocket(s.slots, fd);
    if i < |s.slots| {
      forall j | 0 <= j < MAX_SERVERS && s'.holder[j].Some?
        ensures Mirrors(s'.dir, j, TableAt(s', j))
      {
        PurgedMirrors(s.dir, i, j, TableAt(s, j));
      }
    }
  }

  /** A connection lost in a request: whether or not the storage server had changed its
      table, its slot is freed and the other mirrors stay. */
  lemma LostMirrors(s: State, i: nat, t: seq<Meta>, changed: bool)
    requires Shape(s) && SlotsSafe(s) && Apart(s) && IsActive(s, i) && OthersMirror(s, i)
    ensures AllMirror(RemoveServer(if changed then WithTable(s, i, t) else s, s.slots[i].fd))
  {
    hide Mirrors, Purge, PurgedNames;
    var s' := RemoveServer(if changed then WithTable(s, i, t) else s, s.slots[i].fd);
    assert SlotOfSocket(s.slots, s.slots[i].fd) == i;
    forall j | 0 <= j < MAX_SERVERS && s'.holder[j].Some?
      ensures Mirrors(s'.dir, j, TableAt(s', j))
    {
      PurgedMirrors(s.dir, i, j, TableAt(s, j));
    }
  }

  lemma TableAtOk(s: State, ns: iset<string>, i: nat)
    requires Shape(s) && i < MAX_SERVERS && TablesOk(s.tables, ns)
    ensures TableOk(TableAt(s, i), ns)
  {
    assert TableOk([], ns);
  }

  /** What `Mirrored` says of one slot. */
  lemma SlotMirrors(s: State, ns: iset<string>, i: nat)
    requires Shape(s) && Mirrored(s, ns) && i < MAX_SERVERS
    ensures UniqueNames(TableAt(s, i)) && |TableAt(s, i)| <= MAX_FILES
    ensures s.holder[i].Some? ==> Mirrors(s.dir, i, TableAt(s, i))
    ensures IsActive(s, i) <==> s.holder[i].Some?
  {
    hide Mirrors, Coherent, RowOk;
    TableAtOk(s, ns, i);
  }

  /** What it says of one record. */
  lemma RecordPlaced(s: State, ns: iset<string>, path: string)
    requires Shape(s) && Mirrored(s, ns) && path in s.dir
    ensures IsActive(s, s.dir[path].server) && s.holder[s.dir[path].server].Some?
    ensures s.dir[path].name in ns && Clean(s.dir[path].name) == path
  {
    hide TablesOk, AllMirror, Apart, Agrees, OneSpelling, Clean;
  }

  /** A new file for which the table has no room. */
  lemma CreatedUnseen(dir: Dir, i: nat, t: seq<Meta>, name: string, user: string, now: int)
    requires Mirrors(dir, i, t) && Clean(name) !in dir && |t| == MAX_FILES
    ensures !Mirrors(dir[Clean(name) := NewRec(name, i, user)], i, SetOwner(AddRow(t, NewRow(name, 0, 0, now)), name, user))
  {
    hide Clean, RowOf;
    assert Row(t, name).None?;
    assert SetOwner(AddRow(t, NewRow(name, 0, 0, now)), name, user) == t;
    assert dir[Clean(name) := NewRec(name, i, user)][Clean(name)].name == name;
  }

  lemma CreateMirrors(s: State, ns: iset<string>, i: nat, name: string, user: string, now: int, outcome: Outcome)
    requires Shape(s) && Mirrored(s, ns) && IsActive(s, i) && Clean(name) !in s.dir
    ensures AllMirror(CreateOn(s, i, name, user, now, outcome)) <==> outcome.Lost? || |TableAt(s, i)| < MAX_FILES
  {
    hide TableOk, Mirrors, Coherent, AddRow, SetOwner, NewRow, Purge, PurgedNames, RemoveServer, Clean;
    var t, path := TableAt(s, i), Clean(name);
    SlotMirrors(s, ns, i);
    if outcome.Lost? {
      LostMirrors(s, i, AddRow(t, NewRow(name, 0, 0, now)), outcome.carriedOut);
    } else {
      var dir := s.dir[path := NewRec(name, i, user)];
      ElsewhereAllMirror(s, i, dir, path);
      WithTableMirrors(s.(dir := dir), i, SetOwner(AddRow(t, NewRow(name, 0, 0, now)), name, user));
      if |t| < MAX_FILES {
        CreatedMirrors(s.dir, i, t, name, user, now);
      } else {
        CreatedUnseen(s.dir, i, t, name, user, now);
      }
    }
  }

  /** The record goes, and then the row of that name. */
  lemma DeletedParts(s: State, ns: iset<string>, name: string, user: string)
    requires Shape(s) && Mirrored(s, ns) && DeleteFile(s.dir, name, user).1 >= 0
    ensures var (dir, i) := DeleteFile(s.dir, name, user);
      name in s.dir && IsActive(s, i) && s.holder[i].Some? && OthersMirror(s.(dir := dir), i) && SlotsSafe(s.(dir := dir)) &&
      (Mirrors(dir, i, RemoveRow(TableAt(s, i), name)) <==> s.dir[name].name == name)
  {
    hide TableOk, Mirrors, Ascii, RemoveRow, Clean, OneSpelling, Agrees;
    var (dir, i) := DeleteFile(s.dir, name, user);
    CleanAscii(name);
    RecordPlaced(s, ns, name);
    SlotMirrors(s, ns, i);
    ElsewhereAllMirror(s, i, dir, name);
    if s.dir[name].name == name {
      DeletedMirrors(s.dir, ns, i, TableAt(s, i), name);
    } else {
      DeletedUnseen(s.dir, i, TableAt(s, i), name);
    }
  }

  lemma DeleteMirrors(s: State, ns: iset<string>, name: string, user: string, outcome: Outcome)
    requires Shape(s) && Mirrored(s, ns)
    ensures AllMirror(DeleteEverywhere(s, name, user, outcome)) <==>
            DeleteFile(s.dir, name, user).1 < 0 || outcome.Lost? || s.dir[name].name == name
  {
    hide Mirrors, DeleteFile, RemoveRow, RemoveServer, WithTable, TablesOk, Coherent, AllMirror;
    var (dir, i) := DeleteFile(s.dir, name, user);
    if i >= 0 {
      var s' := s.(dir := dir, cache := Cache.Invalidated(s.cache, name));
      DeletedParts(s, ns, name, user);
      var t := RemoveRow(TableAt(s, i), name);
      assert OthersMirror(s', i) && SlotsSafe(s') && Apart(s');
      if outcome.Lost? {
        LostMirrors(s', i, t, outcome.carriedOut);
      } else {
        WithTableMirrors(s', i, t);
      }
    }
  }

  /** A lookup finds what the directory holds, under whatever name: no other than those of
      the run are cached. */
  lemma FindAny(s: State, ns: iset<string>, name: string, now: int)
    requires Shape(s) && Coherent(s, ns)
    ensures FindServer(s, name, now).1 == ServerOf(s.dir, name)
    ensures Clean(name) !in s.dir ==> FindServer(s, name, now).0 == s
  {
    hide Clean, OneSpelling;
    if name in ns {
      FindAgrees(s, ns, name, now);
    } else {
      assert forall k | 0 <= k < |s.cache| && s.cache[k].valid :: s.cache[k].name in ns;
    }
  }

  /** The row of a record, with the same owner and list. */
  lemma RecordRow(s: State, ns: iset<string>, path: string) returns (k: nat)
    requires Shape(s) && Mirrored(s, ns) && path in s.dir
    ensures var t := TableAt(s, s.dir[path].server);
      k == RowOf(t, s.dir[path].name) < |t| && t[k].name == s.dir[path].name && Same(s.dir[path], t[k])
  {
    hide TableOk, Coherent, Clean;
    var t := TableAt(s, s.dir[path].server);
    k := RowOf(t, s.dir[path].name);
    assert Mirrors(s.dir, s.dir[path].server, t);
  }

  function WithList(dir: Dir, path: string, acl: seq<Acl.Entry>): Dir
    requires path in dir
  {
    dir[path := dir[path].(acl := acl)]
  }

  /** A record's list changes: the mirror holds if its row's list changes with it, and
      otherwise exactly if the list was that already. */
  lemma ChangeMirrors(s: State, ns: iset<string>, path: string, acl: seq<Acl.Entry>)
    requires Shape(s) && Mirrored(s, ns) && path in s.dir
    ensures var i, s' := s.dir[path].server, s.(dir := WithList(s.dir, path, acl));
      var t := TableAt(s, i); var k := RowOf(t, s.dir[path].name);
      k < |t| && t[k].acl == s.dir[path].acl && AllMirror(WithTable(s', i, t[k := t[k].(acl := acl)])) &&
      (AllMirror(s') <==> WithList(s.dir, path, acl) == s.dir)
  {
    hide TableOk, Mirrors, OneSpelling, Agrees, RowOf, WithTable, OthersMirror, Clean;
    var i, dir := s.dir[path].server, WithList(s.dir, path, acl);
    var s', t := s.(dir := dir), TableAt(s, i);
    RecordPlaced(s, ns, path);
    SlotMirrors(s, ns, i);
    var k := RecordRow(s, ns, path);
    ChangedMirrors(s.dir, ns, i, t, path, dir[path], t[k].(acl := acl));
    ElsewhereAllMirror(s, i, dir, path);
    WithTableMirrors(s', i, t[k := t[k].(acl := acl)]);
    LeftMirrors(s, i, path, acl, k);
  }

  /** And if the row is left as it was. */
  lemma LeftMirrors(s: State, i: nat, path: string, acl: seq<Acl.Entry>, k: nat)
    requires Shape(s) && i < MAX_SERVERS && s.holder[i].Some? && AllMirror(s) && path in s.dir && s.dir[path].server == i
    requires k == RowOf(TableAt(s, i), s.dir[path].name) < |TableAt(s, i)| && TableAt(s, i)[k].acl == s.dir[path].acl
    ensures AllMirror(s.(dir := WithList(s.dir, path, acl))) <==> WithList(s.dir, path, acl) == s.dir
  {
    hide RowOf, Clean;
    var dir := WithList(s.dir, path, acl);
    if AllMirror(s.(dir := dir)) {
      assert Mirrors(dir, i, TableAt(s, i));
      assert dir[path].acl == TableAt(s, i)[k].acl;
      assert dir == s.dir;
    }
  }

  /** The mirror does not see the cache. */
  lemma CacheUnseen(s: State, s': State)
    requires Shape(s) && Shape(s') && s' == s.(cache := s'.cache)
    ensures AllMirror(s') == AllMirror(s)
  {
    hide Mirrors;
  }

  /** After a list has changed a lookup finds the file's slot as it did before. */
  lemma FoundAfter(s: State, ns: iset<string>, name: string, acl: seq<Acl.Entry>, now: int)
    requires Shape(s) && Mirrored(s, ns) && Clean(name) in s.dir
    ensures var s1 := s.(dir := WithList(s.dir, Clean(name), acl)); var i := s.dir[Clean(name)].server;
      FindServer(s1, name, now).1 == i && IsActive(s, i) && s.holder[i].Some?
  {
    hide TablesOk, AllMirror, Apart, Agrees, Clean, FindServer;
    var s1 := s.(dir := WithList(s.dir, Clean(name), acl));
    GrownAgrees(s.cache, s.dir, s1.dir, ns);
    assert Named(s1.dir, ns);
    FindAny(s1, ns, name, now);
  }

  /** The new list is carried to the storage server after a lookup of the file. */
  lemma SentMirrors(s: State, ns: iset<string>, name: string, acl: seq<Acl.Entry>, now: int)
    requires Shape(s) && Mirrored(s, ns) && Clean(name) in s.dir
    ensures var path := Clean(name);
      var i, t := s.dir[path].server, TableAt(s, s.dir[path].server);
      var (s', found) := FindServer(s.(dir := WithList(s.dir, path, acl)), name, now);
      found == i && IsActive(s', i) && TableAt(s', i) == t &&
      (AllMirror(s') <==> WithList(s.dir, path, acl) == s.dir) && AllMirror(WithTable(s', i, t)) == AllMirror(s') &&
      var k := RowOf(t, name);
      if s.dir[path].name == name
      then k < |t| && t[k].acl == s.dir[path].acl && AllMirror(WithTable(s', i, t[k := t[k].(acl := acl)]))
      else k == |t|
  {
    hide TablesOk, TableOk, AllMirror, Mirrored, Clean, FindServer, RowOf, Mirrors;
    var path := Clean(name);
    var s1 := s.(dir := WithList(s.dir, path, acl));
    var i := s.dir[path].server;
    FoundAfter(s, ns, name, acl, now);
    ChangeMirrors(s, ns, path, acl);
    var t := TableAt(s, i);
    var s' := FindServer(s1, name, now).0;
    CacheUnseen(s1, s');
    SameTableMirrors(s', i);
    if s.dir[path].name == name {
      var k := RowOf(t, name);
      CacheUnseen(WithTable(s1, i, t[k := t[k].(acl := acl)]), WithTable(s', i, t[k := t[k].(acl := acl)]));
    } else {
      SlotMirrors(s, ns, i);
      NoSuchRow(s.dir, i, t, name);
    }
  }

  lemma SameTableMirrors(s: State, i: nat)
    requires Shape(s) && i < MAX_SERVERS
    ensures AllMirror(WithTable(s, i, TableAt(s, i))) == AllMirror(s)
  {
    hide Mirrors;
    var s' := WithTable(s, i, TableAt(s, i));
    assert forall j | 0 <= j < MAX_SERVERS && s.holder[j].Some? :: TableAt(s', j) == TableAt(s, j);
  }

  /** Under another name than its record's a file has no row. */
  lemma NoSuchRow(dir: Dir, i: int, t: seq<Meta>, name: string)
    requires Mirrors(dir, i, t) && Clean(name) in dir && dir[Clean(name)].name != name
    ensures RowOf(t, name) == |t|
  {
    hide Clean, RowOf;
    assert !InSlot(dir, i, name);
    assert Row(t, name).None?;
  }

  lemma RegisterMirrors(s: State, ns: iset<string>, server: int, fd: int, ip: string, port: int)
    requires Shape(s) && Mirrored(s, ns)
    ensures AllMirror(RegisterServer(s, server, fd, ip, port)) <==>
            FirstFree(s.slots) == |s.slots| || NoConflict(s.dir, TableOf(s, server))
  {
    hide Mirrors, TableOk, OneSpelling, Named, Agrees, RebuildAll, Reloaded, NoConflict;
    var i, t := FirstFree(s.slots), TableOf(s, server);
    ReloadedIsTable(s, ns, server);
    var s' := RegisterServer(s, server, fd, ip, port);
    forall j | 0 <= j < MAX_SERVERS && j != i ensures s'.holder[j] == s.holder[j] && TableAt(s', j) == TableAt(s, j) {
    }
    if i < |s.slots| {
      if NoConflict(s.dir, t) {
        RebuiltMirrors(s.dir, ns, i, t);
        OthersStay(s, s', i);
      } else {
        ConflictUnseen(s.dir, i, t);
        assert s'.holder[i] == Some(server) && TableAt(s', i) == t;
      }
    }
  }

  /** The slots beside a newly filled one mirror their tables as before. */
  lemma OthersStay(s: State, s': State, i: nat)
    requires Shape(s) && Shape(s') && AllMirror(s) && i < MAX_SERVERS
    requires forall j | 0 <= j < MAX_SERVERS && j != i :: s'.holder[j] == s.holder[j] && TableAt(s', j) == TableAt(s, j)
    requires forall path :: path in s.dir ==> path in s'.dir && s'.dir[path] == s.dir[path]
    requires forall path :: path in s'.dir ==> path in s.dir || s'.dir[path].server == i
    ensures OthersMirror(s', i)
  {
    hide Mirrors;
    forall j | 0 <= j < MAX_SERVERS && s'.holder[j].Some? && j != i
      ensures Mirrors(s'.dir, j, TableAt(s', j))
    {
      OlderMirrors(s.dir, s'.dir, i, j, TableAt(s, j));
    }
  }

  lemma OlderMirrors(dir: Dir, dir': Dir, i: nat, j: nat, t: seq<Meta>)
    requires Mirrors(dir, j, t) && i != j
    requires forall path :: path in dir ==> path in dir' && dir'[path] == dir[path]
    requires forall path :: path in dir' ==> path in dir || dir'[path].server == i
    ensures Mirrors(dir', j, t)
  {
    hide Row, Same, Clean;
  }

  /** A refused file has a row and no record in its server's slot. */
  lemma ConflictUnseen(dir: Dir, i: nat, t: seq<Meta>)
    requires !NoConflict(dir, t) && forall path :: path in dir ==> dir[path].server != i
    ensures !Mirrors(RebuildAll(dir, i, t), i, t)
  {
    hide RebuildAll, Clean;
    var k :| 0 <= k < |t| && Clean(t[k].name) in dir;
    RebuiltServers(dir, i, t);
    var name := t[k].name;
    assert Row(t, name).Some? && !InSlot(RebuildAll(dir, i, t), i, name);
  }

  /** A new size, word count or time leaves owners and lists alone. */
  lemma TouchMirrors(s: State, ns: iset<string>, e: Event)
    requires Shape(s) && Mirrored(s, ns) && (e.Update? || e.Access?)
    ensures AllMirror(Step(s, e))
  {
    hide Coherent, Mirrors, TableOk;
    var server, name := e.server, e.name;
    var t := TableOf(s, server);
    var k := RowOf(t, name);
    forall j | 0 <= j < MAX_SERVERS && s.holder[j].Some?
      ensures Mirrors(s.dir, j, TableAt(Step(s, e), j))
    {
      if s.holder[j].value == server && k < |t| {
        SlotMirrors(s, ns, j);
        var m := if e.Update? then t[k].(size := e.size, words := e.words, modified := e.now)
                 else t[k].(accessed := e.now, accessedBy := e.user);
        TouchedMirror(s.dir, j, t, k, m);
      }
    }
  }

  lemma TouchedMirror(dir: Dir, i: int, t: seq<Meta>, k: nat, m: Meta)
    requires UniqueNames(t) && Mirrors(dir, i, t) && k < |t|
    requires m.name == t[k].name && m.owner == t[k].owner && m.acl == t[k].acl
    ensures Mirrors(dir, i, t[k := m])
  {
    hide RowOf, Clean;
    RowOfIs(t, k);
    forall n
      ensures Row(t[k := m], n) == if n == m.name then Some(m) else Row(t, n)
    {
      PutRowSets(t, k, m, n);
    }
  }

  // ---- Which steps keep the mirror ------------------------------------------------------------

  /** What keeps the mirror: a created file finds room in the table of its server, a deleted
      one is deleted under the name it was created with, a changed list reaches the storage
      server under that name, and a registering server has no file another one has. */
  ghost predicate Keeps(s: State, e: Event)
    requires Shape(s)
  {
    match e
    case Create(name, _, _, outcome) =>
      var i := Next(s.slots, s.next);
      Clean(name) in s.dir || i.None? || outcome.Lost? || |TableAt(s, i.value)| < MAX_FILES
    case Delete(name, user, outcome) =>
      DeleteFile(s.dir, name, user).1 < 0 || outcome.Lost? || s.dir[name].name == name
    case Grant(name, owner, user, permission, _, outcome) =>
      var dir := GrantFile(s.dir, name, owner, user, permission);
      dir.None? || dir.value == s.dir || (s.dir[Clean(name)].name == name && Arrives(outcome))
    case Revoke(name, owner, user, _, outcome) =>
      var dir := RevokeFile(s.dir, name, owner, user);
      dir.None? || dir.value == s.dir || (s.dir[Clean(name)].name == name && Arrives(outcome))
    case Register(server, _, _, _) => FirstFree(s.slots) == |s.slots| || NoConflict(s.dir, TableOf(s, server))
    case _ => true
  }

  lemma GrantMirrors(s: State, ns: iset<string>, e: Event)
    requires Shape(s) && Mirrored(s, ns) && e.Grant?
    ensures AllMirror(Step(s, e)) <==> Keeps(s, e)
  {
    hide Mirrored, AllMirror, Clean, FindServer, Acl.Granted, RowOf;
    var Grant(name, owner, user, permission, now, outcome) := e;
    var dir := GrantFile(s.dir, name, owner, user, permission);
    if dir.Some? {
      var acl := Acl.Granted(s.dir[Clean(name)].acl, user, permission).value;
      SentMirrors(s, ns, name, acl, now);
    } else {
      MirroredMirrors(s, ns);
    }
  }

  lemma RevokeMirrors(s: State, ns: iset<string>, e: Event)
    requires Shape(s) && Mirrored(s, ns) && e.Revoke?
    ensures AllMirror(Step(s, e)) <==> Keeps(s, e)
  {
    hide Mirrored, AllMirror, Clean, FindServer, Acl.Revoked, RowOf;
    var Revoke(name, owner, user, now, outcome) := e;
    var dir := RevokeFile(s.dir, name, owner, user);
    if dir.Some? {
      SentMirrors(s, ns, name, Acl.Revoked(s.dir[Clean(name)].acl, user), now);
    } else {
      MirroredMirrors(s, ns);
    }
  }

  lemma MirroredMirrors(s: State, ns: iset<string>)
    requires Shape(s) && Mirrored(s, ns)
    ensures AllMirror(s) && SlotsSafe(s)
  {
  }

  lemma CreateFileMirrors(s: State, ns: iset<string>, e: Event)
    requires Shape(s) && Mirrored(s, ns) && e.Create?
    ensures AllMirror(Step(s, e)) <==> Keeps(s, e)
  {
    hide Mirrors, TablesOk, CreateOn, FindServer, Agrees, Named, OneSpelling, Clean, Next;
    var Create(name, user, now, outcome) := e;
    var (s1, found) := FindServer(s, name, now);
    var i := Next(s1.slots, s1.next);
    FindAny(s, ns, name, now);
    CacheUnseen(s, s1);
    if found == -1 && i.Some? {
      CreateMirrors(s1.(next := Wrapped(i.value + 1, MAX_SERVERS)), ns, i.value, name, user, now, outcome);
    }
  }

  /** Exactly when one step keeps the lists in memory and on disk equal. */
  lemma StepMirrorsExactly(s: State, ns: iset<string>, e: Event)
    requires Shape(s) && Mirrored(s, ns)
    ensures AllMirror(Step(s, e)) <==> Keeps(s, e)
  {
    hide Mirrored, AllMirror, CreateFile, DeleteEverywhere, GrantEverywhere, RevokeEverywhere, RegisterServer,
      RemoveServer, FindServer, UpdateRow, AccessRow;
    MirroredMirrors(s, ns);
    match e
    case Locate(name, now) => CacheUnseen(s, FindServer(s, name, now).0);
    case Create(_, _, _, _) => CreateFileMirrors(s, ns, e);
    case Delete(name, user, outcome) => DeleteMirrors(s, ns, name, user, outcome);
    case Grant(_, _, _, _, _, _) => GrantMirrors(s, ns, e);
    case Revoke(_, _, _, _, _) => RevokeMirrors(s, ns, e);
    case Register(server, fd, ip, port) => RegisterMirrors(s, ns, server, fd, ip, port);
    case Remove(fd) => RemovedMirrors(s, fd);
    case Restart => StartMirrors(s.tables);
    case Update(_, _, _, _, _) => TouchMirrors(s, ns, e);
    case Access(_, _, _, _) => TouchMirrors(s, ns, e);
  }

  lemma StartMirrors(tables: map<int, seq<Meta>>)
    ensures AllMirror(Start(tables)) && Apart(Start(tables))
  {
  }
}
