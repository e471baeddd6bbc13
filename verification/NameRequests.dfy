/** What each request does to the running name server, read off its maps and lists: an owner's
    changes of rights take effect and anybody else's do not, new files and storage servers
    are recorded as they came, and nothing else changes. */
module NameRequests {
  import opened Text
  import opened Metadata
  import opened Directory
  import opened Registry
  import opened MetaStore
  import opened NameServer
  import opened Coherence
  import opened Mirror
  import opened Restarts
  import Acl
  import Cache

  /** A grant by the owner that has room gives exactly that user exactly that permission, so
      the user passes the check for it and all below; any other grant changes nothing. */
  lemma GrantServed(s: State, name: string, sender: string, user: string, permission: int, now: int, outcome: Outcome)
    requires Shape(s) && DirValid(s.dir)
    ensures var path, s' := Clean(name), Step(s, Event.Grant(name, sender, user, permission, now, outcome));
      if path in s.dir && s.dir[path].owner == sender &&
        (|s.dir[path].acl| < 10 || exists e :: e in s.dir[path].acl && e.user == user)
      then
        s'.dir == s.dir[path := s.dir[path].(acl := s'.dir[path].acl)] && DirValid(s'.dir) &&
        (forall u :: Acl.PermissionOf(s'.dir[path].acl, u) ==
                     if u == user then Some(permission) else Acl.PermissionOf(s.dir[path].acl, u)) &&
        forall p :: p <= permission ==> Check(s'.dir, name, user, p)
      else s' == s
  {
    hide Clean, FindServer, Acl.Granted, Acl.PermissionOf, Acl.Allows, SetAcl;
    var path := Clean(name);
    GrantsExactly(s.dir, name, sender, user, permission);
    var r := GrantFile(s.dir, name, sender, user, permission);
    if r.Some? {
      assert r.value == s.dir[path := s.dir[path].(acl := r.value[path].acl)];
      Acl.GrantedIsUpdate(s.dir[path].acl, user, permission, user);
      forall p | p <= permission ensures Check(r.value, name, user, p) {
        Acl.AllowsByEntry(r.value[path].acl, user, p);
      }
    }
  }

  /** A removal by the owner takes exactly that user off, who then passes no check; any other
      removal changes nothing. */
  lemma RevokeServed(s: State, name: string, sender: string, user: string, now: int, outcome: Outcome)
    requires Shape(s) && DirValid(s.dir)
    ensures var path, s' := Clean(name), Step(s, Event.Revoke(name, sender, user, now, outcome));
      if path in s.dir && s.dir[path].owner == sender
      then
        s'.dir == s.dir[path := s.dir[path].(acl := s'.dir[path].acl)] && DirValid(s'.dir) &&
        (forall u :: Acl.PermissionOf(s'.dir[path].acl, u) ==
                     if u == user then None else Acl.PermissionOf(s.dir[path].acl, u)) &&
        (user != sender ==> forall p :: !Check(s'.dir, name, user, p))
      else s' == s
  {
    hide Clean, FindServer, Acl.Revoked, Acl.PermissionOf, Acl.Allows, RemoveAcl;
    var path := Clean(name);
    RevokesExactly(s.dir, name, sender, user);
    var r := RevokeFile(s.dir, name, sender, user);
    if r.Some? {
      assert r.value == s.dir[path := s.dir[path].(acl := r.value[path].acl)];
      Acl.RevokedIsRemoval(s.dir[path].acl, user, user);
      forall p ensures !Acl.Allows(r.value[path].acl, user, p) {
        Acl.AllowsByEntry(r.value[path].acl, user, p);
      }
    }
  }

  /** A deletion by the owner, under the path itself, drops that file; with the connection
      lost the files of its slot go too. Any other deletion changes nothing. */
  lemma DeleteServed(s: State, name: string, sender: string, outcome: Outcome)
    requires Shape(s) && SlotsSafe(s) && forall path :: path in s.dir ==> Ascii(path)
    requires forall i, j | 0 <= i < j < |s.slots| && s.slots[i].active && s.slots[j].active :: s.slots[i].fd != s.slots[j].fd
    ensures var s' := Step(s, Event.Delete(name, sender, outcome));
      if name in s.dir && s.dir[name].owner == sender
      then
        (forall path :: path in s'.dir <==>
           path in s.dir && path != name && (outcome.Lost? ==> s.dir[path].server != s.dir[name].server)) &&
        forall path :: path in s'.dir ==> s'.dir[path] == s.dir[path]
      else s' == s
  {
    hide Cache.Invalidated, RemoveRow, PurgedNames, Ascii;
    DeletesExactly(s.dir, name, sender);
    if name in s.dir && s.dir[name].owner == sender {
      var i := s.dir[name].server;
      assert IsActive(s, i) && SlotOfSocket(s.slots, s.slots[i].fd) == i;
    }
  }

  /** An acknowledged creation of a new file records it in one active slot with its creator as
      owner, who alone passes its checks; the storage server there, if its table has room, has
      the row, with the same owner. No other file and no slot changes. */
  lemma CreationServed(s: State, ns: iset<string>, name: string, user: string, now: int, u: string, p: int)
    requires Shape(s) && Coherent(s, ns) && SlotsSafe(s) && name in ns && Clean(name) !in s.dir
    requires exists i :: 0 <= i < |s.slots| && s.slots[i].active
    ensures var path, s' := Clean(name), Step(s, Event.Create(name, user, now, Acked));
      (forall f :: f in s'.dir <==> f in s.dir || f == path) && (forall f :: f in s.dir ==> s'.dir[f] == s.dir[f]) &&
      s'.slots == s.slots && s'.holder == s.holder &&
      var r := s'.dir[path];
      r.name == name && r.owner == user && r.folder == "" && (Check(s'.dir, name, u, p) <==> u == user) &&
      IsActive(s, r.server) &&
      var t, t' := TableAt(s, r.server), TableAt(s', r.server);
      (UniqueNames(t) && Row(t, name).None? && |t| < MAX_FILES ==>
         Row(t', name) == Some(Meta(name, 0, 0, now, now, now, "", user, "", [])))
  {
    hide Clean, Coherent, FindServer, Next, AddRow, SetOwner, NewRow, Row;
    FindAgrees(s, ns, name, now);
    SomeServer(s.slots, s.next);
    AddsExactly(s.dir, name, Next(s.slots, s.next).value, user, u, p);
    var t := TableAt(s, Next(s.slots, s.next).value);
    if UniqueNames(t) && Row(t, name).None? && |t| < MAX_FILES {
      CreatesExactly(t, name, 0, 0, now);
      AddRowSets(t, NewRow(name, 0, 0, now), name);
      ChangesExactly(AddRow(t, NewRow(name, 0, 0, now)), name, name, 0, 0, 0, user, 0);
    }
  }

  lemma SomeServer(slots: seq<Slot>, start: nat)
    requires start < |slots| && exists i :: 0 <= i < |slots| && slots[i].active
    ensures Next(slots, start).Some?
  {
    var i :| 0 <= i < |slots| && slots[i].active;
    assert At(slots, if i < start then i + |slots| else i);
  }

  /** A creation of a file that is there, or with no storage server, records nothing. */
  lemma CreationRefused(s: State, ns: iset<string>, name: string, user: string, now: int, outcome: Outcome)
    requires Shape(s) && Coherent(s, ns) && name in ns
    requires Clean(name) in s.dir || forall i | 0 <= i < |s.slots| :: !s.slots[i].active
    ensures var s' := Step(s, Event.Create(name, user, now, outcome)); s' == s.(cache := s'.cache)
  {
    hide Clean, Agrees, OneSpelling;
    FindAgrees(s, ns, name, now);
    hide FindServer;
  }

  /** A registering storage server takes a slot that was free, with its socket and address; no
      other slot changes, and with no slot free nothing is recorded. */
  lemma RegistrationServed(s: State, server: int, fd: int, ip: string, port: int)
    requires Shape(s)
    ensures var s' := Step(s, Event.Register(server, fd, ip, port));
      if forall i | 0 <= i < |s.slots| :: s.slots[i].active
      then s'.slots == s.slots && s'.holder == s.holder && s'.dir == s.dir
      else exists i :: 0 <= i < |s.slots| && !s.slots[i].active && (forall k | 0 <= k < i :: s.slots[k].active) &&
             s'.slots == s.slots[i := Slot(true, fd, ip, port)] && s'.holder == s.holder[i := Some(server)]
  {
    hide Reloaded, RebuildAll;
    var i := FirstFree(s.slots);
    assert i < |s.slots| ==> !s.slots[i].active;
  }

  /** After its restart the name server knows no file and no storage server, and has nothing
      cached; the storage servers have kept their tables. */
  lemma RestartServed(s: State)
    requires Shape(s)
    ensures var s' := Step(s, Restart);
      s'.dir == map[] && s'.tables == s.tables && (forall k | 0 <= k < |s'.cache| :: !s'.cache[k].valid) &&
      forall i | 0 <= i < |s'.slots| :: !s'.slots[i].active && s'.holder[i] == None
  {
  }

  // ---- Access lists over runs -----------------------------------------------------------------

  ghost predicate ListsIn(t: seq<Meta>) {
    forall m :: m in t ==> Acl.Valid(m.acl)
  }

  ghost predicate ListsOk(s: State) {
    DirValid(s.dir) && forall server :: server in s.tables ==> ListsIn(s.tables[server])
  }

  lemma RowListsStay(t: seq<Meta>, name: string, user: string, permission: int, size: int, words: int, now: int)
    requires ListsIn(t)
    ensures ListsIn(AddRow(t, NewRow(name, size, words, now))) && ListsIn(RemoveRow(t, name))
    ensures ListsIn(SetOwner(t, name, user)) && ListsIn(UpdateRow(t, name, size, words, now))
    ensures ListsIn(AccessRow(t, name, user, now)) && ListsIn(SetAcl(t, name, user, permission))
    ensures ListsIn(RemoveAcl(t, name, user))
  {
    hide Acl.Granted, Acl.Revoked, RowOf;
    var i := RowOf(t, name);
    if i < |t| {
      assert t[i] in t;
      Acl.GrantedIsUpdate(t[i].acl, user, permission, user);
      Acl.RevokedIsRemoval(t[i].acl, user, user);
    }
  }

  lemma {:induction false} RebuiltLists(dir: Dir, i: int, t: seq<Meta>)
    requires DirValid(dir) && ListsIn(t)
    ensures DirValid(RebuildAll(dir, i, t))
  {
    hide Clean, Acl.Valid;
    if t != [] {
      assert t[|t| - 1] in t && forall m :: m in t[..|t| - 1] ==> m in t;
      RebuiltLists(dir, i, t[..|t| - 1]);
    }
  }

  lemma TableListsAt(s: State, i: nat)
    requires Shape(s) && i < MAX_SERVERS && ListsOk(s)
    ensures ListsIn(TableAt(s, i))
  {
    hide Acl.Valid;
  }

  lemma WithTableLists(s: State, i: nat, t: seq<Meta>)
    requires Shape(s) && i < MAX_SERVERS && ListsOk(s) && ListsIn(t)
    ensures ListsOk(WithTable(s, i, t))
  {
    hide ListsIn, DirValid;
  }

  lemma RemovedLists(s: State, fd: int)
    requires Shape(s) && ListsOk(s)
    ensures ListsOk(RemoveServer(s, fd))
  {
    hide ListsIn, Acl.Valid;
  }

  lemma SameLists(s: State, s': State)
    requires ListsOk(s) && s'.dir == s.dir && s'.tables == s.tables
    ensures ListsOk(s')
  {
  }

  lemma CreatedLists(s: State, e: Event)
    requires Shape(s) && ListsOk(s) && e.Create?
    ensures ListsOk(Step(s, e))
  {
    hide Clean, FindServer, Next, ListsIn, RemoveServer, AddRow, NewRow, SetOwner, ListsOk;
    var s1 := FindServer(s, e.name, e.now).0;
    var i := Next(s1.slots, s1.next);
    SameLists(s, s1);
    if i.Some? {
      var s2 := s1.(next := Wrapped(i.value + 1, MAX_SERVERS));
      SameLists(s, s2);
      TableListsAt(s2, i.value);
      var t := AddRow(TableAt(s2, i.value), NewRow(e.name, 0, 0, e.now));
      RowListsStay(TableAt(s2, i.value), e.name, e.user, 0, 0, 0, e.now);
      RowListsStay(t, e.name, e.user, 0, 0, 0, e.now);
      WithTableLists(s2, i.value, t);
      if e.outcome.Acked? {
        WithTableLists(s2, i.value, SetOwner(t, e.name, e.user));
        AddedLists(WithTable(s2, i.value, SetOwner(t, e.name, e.user)),
          CreateOn(s2, i.value, e.name, e.user, e.now, Acked), e.name, i.value, e.user);
      } else {
        RemovedLists(if e.outcome.carriedOut then WithTable(s2, i.value, t) else s2, s2.slots[i.value].fd);
      }
    }
  }

  lemma AddedLists(s: State, s': State, name: string, i: nat, user: string)
    requires ListsOk(s) && s'.dir == AddFile(s.dir, name, i, user) && s'.tables == s.tables
    ensures ListsOk(s')
  {
    hide Clean, ListsIn;
  }

  lemma DeletedLists(s: State, e: Event)
    requires Shape(s) && ListsOk(s) && e.Delete?
    ensures ListsOk(Step(s, e))
  {
    hide Ascii, ListsIn, RemoveServer, RemoveRow, Acl.Valid;
    var (dir, i) := DeleteFile(s.dir, e.name, e.user);
    var s1 := s.(dir := dir, cache := Cache.Invalidated(s.cache, e.name));
    assert ListsOk(s1);
    if IsActive(s, i) {
      TableListsAt(s, i);
      RowListsStay(TableAt(s, i), e.name, e.user, 0, 0, 0, 0);
      var s2 := WithTable(s1, i, RemoveRow(TableAt(s, i), e.name));
      WithTableLists(s1, i, RemoveRow(TableAt(s, i), e.name));
      RemovedLists(if e.outcome == Lost(true) then s2 else s1, s.slots[i].fd);
    }
  }

  /** A new list in the directory, and perhaps on the storage server the lookup finds. */
  lemma ChangedLists(s: State, dir: Dir, name: string, user: string, permission: int, now: int)
    requires Shape(s) && ListsOk(s) && DirValid(dir)
    ensures var (s', i) := FindServer(s.(dir := dir), name, now);
      ListsOk(s') &&
      (IsActive(s', i) ==> ListsOk(WithTable(s', i, SetAcl(TableAt(s', i), name, user, permission))) &&
                           ListsOk(WithTable(s', i, RemoveAcl(TableAt(s', i), name, user))))
  {
    hide FindServer, ListsIn, SetAcl, RemoveAcl, DirValid, WithTable;
    var (s', i) := FindServer(s.(dir := dir), name, now);
    if IsActive(s', i) {
      TableListsAt(s', i);
      RowListsStay(TableAt(s', i), name, user, permission, 0, 0, 0);
      WithTableLists(s', i, SetAcl(TableAt(s', i), name, user, permission));
      WithTableLists(s', i, RemoveAcl(TableAt(s', i), name, user));
    }
  }

  lemma RegisteredLists(s: State, server: int, fd: int, ip: string, port: int)
    requires Shape(s) && ListsOk(s) && Reloaded(s, server) == TableOf(s, server)
    ensures ListsOk(RegisterServer(s, server, fd, ip, port))
  {
    hide Reloaded, RebuildAll, Acl.Valid, Clean;
    assert ListsIn(TableOf(s, server));
    RebuiltLists(s.dir, FirstFree(s.slots), TableOf(s, server));
  }

  lemma NotedLists(s: State, e: Event)
    requires Shape(s) && ListsOk(s) && (e.Update? || e.Access?)
    ensures ListsOk(Step(s, e))
  {
    hide UpdateRow, AccessRow, Acl.Valid;
    assert ListsIn(TableOf(s, e.server));
    RowListsStay(TableOf(s, e.server), e.name, if e.Access? then e.user else "", 0,
      if e.Update? then e.size else 0, if e.Update? then e.words else 0, e.now);
  }

  lemma StepLists(s: State, e: Event)
    requires Shape(s) && ListsOk(s) && (e.Register? ==> Reloaded(s, e.server) == TableOf(s, e.server))
    ensures ListsOk(Step(s, e))
  {
    hide Clean, ListsIn, DirValid, FindServer, CreateFile, DeleteEverywhere, RegisterServer, RemoveServer, SetAcl,
      RemoveAcl, UpdateRow, AccessRow, WithTable;
    match e
    case Create(_, _, _, _) => CreatedLists(s, e);
    case Delete(_, _, _) => DeletedLists(s, e);
    case Grant(name, owner, user, permission, now, _) =>
      var dir := GrantFile(s.dir, name, owner, user, permission);
      if dir.Some? {
        StepOfAcl(s.dir, Op.Grant(name, owner, user, permission), "", user);
        ChangedLists(s, dir.value, name, user, permission, now);
      }
    case Revoke(name, owner, user, now, _) =>
      var dir := RevokeFile(s.dir, name, owner, user);
      if dir.Some? {
        StepOfAcl(s.dir, Op.Revoke(name, owner, user), "", user);
        ChangedLists(s, dir.value, name, user, 0, now);
      }
    case Register(server, fd, ip, port) => RegisteredLists(s, server, fd, ip, port);
    case Remove(fd) => RemovedLists(s, fd);
    case Restart => NothingListed(s);
    case Update(_, _, _, _, _) => NotedLists(s, e);
    case Access(_, _, _, _) => NotedLists(s, e);
    case Locate(name, now) => SameLists(s, FindServer(s, name, now).0);
  }

  lemma NothingListed(s: State)
    requires ListsOk(s)
    ensures ListsOk(Start(s.tables))
  {
  }

  /** Over every run of requests that fit, access lists keep to ten entries and one a user, in
      memory and on disk. */
  lemma {:induction false} ListsStayValid(tables: map<int, seq<Meta>>, ns: iset<string>, es: seq<Event>)
    requires TablesOk(tables, ns) && FitRun(Start(tables), es, ns)
    requires forall server, m :: server in tables && m in tables[server] ==> Acl.Valid(m.acl)
    ensures var s := Run(Start(tables), es);
      TablesOk(s.tables, ns) && ListsOk(s) && forall path :: path in s.dir ==> Acl.Valid(s.dir[path].acl)
  {
    hide TablesOk, Fit, Step;
    var s := Start(tables);
    if es == [] {
      assert ListsOk(s);
    } else {
      hide ListsOk, Start;
      var before, e := es[..|es| - 1], es[|es| - 1];
      FitPrefix(s, es, ns);
      ListsStayValid(tables, ns, before);
      TablesAfter(Run(s, before), ns, e);
      if e.Register? {
        ReloadedIsTable(Run(s, before), ns, e.server);
      }
      StepLists(Run(s, before), e);
      DirLists(Run(s, es));
    }
  }

  lemma DirLists(s: State)
    requires ListsOk(s)
    ensures forall path :: path in s.dir ==> Acl.Valid(s.dir[path].acl)
  {
  }
}
