/** The access lists the name server holds in memory and those the storage servers keep on
    disk mirror each other over whole runs, so restarts change no permission decision. */
module Restarts {
  import opened Text
  import opened Decimal
  import opened Metadata
  import opened Directory
  import opened Registry
  import opened MetaStore
  import opened NameServer
  import opened Coherence
  import opened Mirror
  import Acl
  import Cache

  // ---- What the mirror asks of a step ---------------------------------------------------------

  predicate PlainName(name: string) {
    name != "" && PlainField(name) && |name| <= NAME_SIZE
  }

  predicate PlainOwner(user: string) {
    PlainField(user) && user != "-" && |user| <= USER_SIZE
  }

  /** Names are those of the run, and with users and numbers fit their fields and hold no
      separator; and a storage server registers on a fresh socket, once its old slot was
      freed. */
  ghost predicate Fit(s: State, e: Event, ns: iset<string>)
    requires Shape(s)
  {
    (forall name :: Names(e, name) ==> name in ns) &&
    match e
    case Create(name, user, now, _) => PlainName(name) && PlainOwner(user) && Is64Bit(now)
    case Grant(_, _, user, permission, _, _) => PlainUser(user) && EntryFits(Acl.Entry(user, permission))
    case Register(server, fd, _, _) => Some(server) !in s.holder && SlotOfSocket(s.slots, fd) == |s.slots|
    case Update(_, _, size, words, now) => Is64Bit(size) && Is64Bit(words) && Is64Bit(now)
    case Access(_, _, user, now) => PlainOwner(user) && Is64Bit(now)
    case _ => true
  }

  ghost predicate FitRun(s: State, es: seq<Event>, ns: iset<string>)
    requires Shape(s)
  {
    forall k | 0 <= k < |es| :: Fit(Run(s, es[..k]), es[k], ns)
  }

  lemma FitIsOver(s: State, ns: iset<string>, e: Event)
    requires Shape(s) && TablesOk(s.tables, ns) && Fit(s, e, ns)
    ensures EventOver(s, e, ns)
  {
    hide Save, Load, Fits, Separable, PlainOwner, PlainUser;
    if e.Register? {
      ReloadedIsTable(s, ns, e.server);
    }
  }

  // ---- One step -------------------------------------------------------------------------------

  /** A record is found under the name it was created with. */
  lemma SameName(s: State, ns: iset<string>, name: string)
    requires Shape(s) && Coherent(s, ns) && name in ns && Clean(name) in s.dir
    ensures s.dir[Clean(name)].name == name
  {
    hide Clean, Agrees;
  }

  /** So over the names of the run only rooms, lost grants and removals, and conflicts are
      left of what a step must meet. */
  lemma SpellingKeeps(s: State, ns: iset<string>, e: Event)
    requires Shape(s) && Coherent(s, ns) && forall name :: Names(e, name) ==> name in ns
    ensures e.Delete? ==> Keeps(s, e)
    ensures (e.Grant? || e.Revoke?) && Arrives(e.outcome) ==> Keeps(s, e)
  {
    hide Clean, Coherent, Acl.Granted, Acl.Revoked, TableAt;
    forall name | Names(e, name) && Clean(name) in s.dir ensures s.dir[Clean(name)].name == name {
      SameName(s, ns, name);
    }
    if e.Delete? && Ascii(e.name) {
      CleanAscii(e.name);
    }
  }

  lemma ApartRemoved(s: State, fd: int)
    requires Shape(s) && Apart(s)
    ensures Apart(RemoveServer(s, fd))
  {
    hide Purge, PurgedNames;
  }

  lemma ApartRegistered(s: State, server: int, fd: int, ip: string, port: int)
    requires Shape(s) && SlotsSafe(s) && Apart(s) && Some(server) !in s.holder && SlotOfSocket(s.slots, fd) == |s.slots|
    ensures Apart(RegisterServer(s, server, fd, ip, port))
  {
    hide Reloaded, RebuildAll;
  }

  lemma SlotsApart(s: State, s': State)
    requires Shape(s) && Shape(s') && Apart(s) && s'.slots == s.slots && s'.holder == s.holder
    ensures Apart(s')
  {
  }

  /** A request leaves the slots alone, but for the one whose connection it finds lost. */
  lemma ApartRequested(s: State, e: Event)
    requires Shape(s) && Apart(s) && (e.Create? || e.Delete?)
    ensures Apart(Step(s, e))
  {
    hide Clean, Ascii, Next, FindServer, RemoveServer, Apart, DeleteFile;
    if e.Create? {
      var s1 := FindServer(s, e.name, e.now).0;
      var i := Next(s1.slots, s1.next);
      if i.Some? {
        var s2 := s1.(next := Wrapped(i.value + 1, MAX_SERVERS));
        var s3 := WithTable(s2, i.value, AddRow(TableAt(s2, i.value), NewRow(e.name, 0, 0, e.now)));
        SlotsApart(s, s2);
        SlotsApart(s, s3);
        ApartRemoved(if e.outcome == Lost(true) then s3 else s2, s.slots[i.value].fd);
        if e.outcome.Acked? {
          SlotsApart(s, CreateOn(s2, i.value, e.name, e.user, e.now, Acked));
        }
      }
      SlotsApart(s, s1);
    } else {
      var (dir, i) := DeleteFile(s.dir, e.name, e.user);
      var s1 := s.(dir := dir, cache := Cache.Invalidated(s.cache, e.name));
      SlotsApart(s, s1);
      if IsActive(s, i) {
        var s2 := WithTable(s1, i, RemoveRow(TableAt(s, i), e.name));
        SlotsApart(s, s2);
        ApartRemoved(if e.outcome == Lost(true) then s2 else s1, s.slots[i].fd);
      }
    }
  }

  lemma ApartAfter(s: State, ns: iset<string>, e: Event)
    requires Shape(s) && SlotsSafe(s) && Apart(s) && Fit(s, e, ns)
    ensures Apart(Step(s, e))
  {
    hide PlainName, PlainOwner, PlainUser, EntryFits, Ascii, Clean, CreateFile, DeleteEverywhere, NoConflict,
      GrantFile, RevokeFile, RegisterServer, RemoveServer, FindServer, Start, Apart;
    match e
    case Create(_, _, _, _) => ApartRequested(s, e);
    case Delete(_, _, _) => ApartRequested(s, e);
    case Register(server, fd, ip, port) => ApartRegistered(s, server, fd, ip, port);
    case Remove(fd) => ApartRemoved(s, fd);
    case Restart => StartMirrors(s.tables);
    case _ => SlotsApart(s, Step(s, e));
  }

  lemma CreatedOk(t: seq<Meta>, ns: iset<string>, name: string, user: string, now: int)
    requires TableOk(t, ns) && PlainName(name) && name in ns && PlainOwner(user) && Is64Bit(now)
    ensures TableOk(AddRow(t, NewRow(name, 0, 0, now)), ns)
    ensures TableOk(SetOwner(AddRow(t, NewRow(name, 0, 0, now)), name, user), ns)
  {
    var t1 := AddRow(t, NewRow(name, 0, 0, now));
    AddOk(t, ns, NewRow(name, 0, 0, now));
    var i := RowOf(t1, name);
    if i < |t1| {
      assert RowOk(t1[i]);
      PutOk(t1, ns, i, t1[i].(owner := user));
    }
  }

  lemma ListOk(t: seq<Meta>, ns: iset<string>, k: nat, acl: seq<Acl.Entry>)
    requires TableOk(t, ns) && k < |t|
    requires |acl| <= Acl.MAX_ENTRIES && forall e :: e in acl ==> EntryFits(e) && PlainUser(e.user)
    ensures TableOk(t[k := t[k].(acl := acl)], ns)
  {
    hide Ascii, PlainField, PlainUser;
    assert RowOk(t[k]);
    PutOk(t, ns, k, t[k].(acl := acl));
  }

  lemma SetAclOk(t: seq<Meta>, ns: iset<string>, name: string, user: string, permission: int)
    requires TableOk(t, ns) && PlainUser(user) && EntryFits(Acl.Entry(user, permission))
    ensures TableOk(SetAcl(t, name, user, permission), ns)
  {
    hide Ascii, PlainField, PlainUser, EntryFits, TableOk, Acl.Granted;
    var k := RowOf(t, name);
    if k < |t| {
      RowList(t, ns, k);
      GrantedFits(t[k].acl, Acl.Entry(user, permission));
      var acl := Acl.Granted(t[k].acl, user, permission);
      if acl.Some? {
        ListOk(t, ns, k, acl.value);
      }
    }
  }

  lemma RemoveAclOk(t: seq<Meta>, ns: iset<string>, name: string, user: string)
    requires TableOk(t, ns)
    ensures TableOk(RemoveAcl(t, name, user), ns)
  {
    hide Ascii, PlainField, PlainUser, EntryFits, TableOk, Acl.Revoked;
    var k := RowOf(t, name);
    if k < |t| {
      RowList(t, ns, k);
      RevokedFits(t[k].acl, user);
      ListOk(t, ns, k, Acl.Revoked(t[k].acl, user));
    }
  }

  lemma RowList(t: seq<Meta>, ns: iset<string>, k: nat)
    requires TableOk(t, ns) && k < |t|
    ensures |t[k].acl| <= Acl.MAX_ENTRIES && forall e :: e in t[k].acl ==> EntryFits(e) && PlainUser(e.user)
  {
    hide Ascii, PlainField, PlainUser, EntryFits;
    assert RowOk(t[k]);
  }

  lemma TouchedOk(t: seq<Meta>, ns: iset<string>, e: Event)
    requires TableOk(t, ns)
    requires match e
      case Update(_, _, size, words, now) => Is64Bit(size) && Is64Bit(words) && Is64Bit(now)
      case Access(_, _, user, now) => PlainOwner(user) && Is64Bit(now)
      case _ => false
    ensures e.Update? ==> TableOk(UpdateRow(t, e.name, e.size, e.words, e.now), ns)
    ensures e.Access? ==> TableOk(AccessRow(t, e.name, e.user, e.now), ns)
  {
    hide Ascii, PlainField;
    var k := RowOf(t, e.name);
    if k < |t| {
      assert RowOk(t[k]);
      var m := if e.Update? then t[k].(size := e.size, words := e.words, modified := e.now)
               else t[k].(accessed := e.now, accessedBy := e.user);
      PutOk(t, ns, k, m);
    }
  }

  lemma WithTableOk(s: State, ns: iset<string>, i: nat, t: seq<Meta>)
    requires Shape(s) && i < MAX_SERVERS && TablesOk(s.tables, ns) && TableOk(t, ns)
    ensures TablesOk(WithTable(s, i, t).tables, ns)
  {
    hide TableOk;
  }

  lemma ListsAfter(s: State, ns: iset<string>, e: Event)
    requires Shape(s) && TablesOk(s.tables, ns) && Fit(s, e, ns) && (e.Grant? || e.Revoke?)
    ensures TablesOk(Step(s, e).tables, ns)
  {
    hide TablesOk, TableOk, Ascii, Clean, PlainUser, EntryFits, FindServer, SetAcl, RemoveAcl, WithTable;
    var dir := if e.Grant? then GrantFile(s.dir, e.name, e.owner, e.user, e.permission)
               else RevokeFile(s.dir, e.name, e.owner, e.user);
    if dir.Some? {
      var (s', i) := FindServer(s.(dir := dir.value), e.name, e.now);
      if IsActive(s', i) {
        TableAtOk(s', ns, i);
        var t := TableAt(s', i);
        if e.Grant? {
          SetAclOk(t, ns, e.name, e.user, e.permission);
        } else {
          RemoveAclOk(t, ns, e.name, e.user);
        }
        WithTableOk(s', ns, i, if e.Grant? then SetAcl(t, e.name, e.user, e.permission) else RemoveAcl(t, e.name, e.user));
      }
    }
  }

  /** The tables stay fit to be kept. */
  lemma TablesAfter(s: State, ns: iset<string>, e: Event)
    requires Shape(s) && TablesOk(s.tables, ns) && Fit(s, e, ns)
    ensures TablesOk(Step(s, e).tables, ns)
  {
    hide TableOk, PlainName, PlainOwner, PlainUser, EntryFits, Ascii, Clean, Next, NoConflict, DeleteFile,
      GrantFile, RevokeFile, FindServer, Reloaded, RebuildAll, RemoveServer, AddRow, SetOwner, RemoveRow, SetAcl,
      RemoveAcl, UpdateRow, AccessRow;
    forall i | 0 <= i < MAX_SERVERS ensures TableOk(TableAt(s, i), ns) {
      TableAtOk(s, ns, i);
    }
    match e
    case Create(name, user, now, outcome) =>
      var i := Next(s.slots, s.next);
      if i.Some? {
        CreatedOk(TableAt(s, i.value), ns, name, user, now);
      }
    case Delete(name, user, outcome) =>
      var i := DeleteFile(s.dir, name, user).1;
      if IsActive(s, i) {
        RemoveOk(TableAt(s, i), ns, name);
      }
    case Grant(_, _, _, _, _, _) => ListsAfter(s, ns, e);
    case Revoke(_, _, _, _, _) => ListsAfter(s, ns, e);
    case Register(server, fd, ip, port) => ReloadedIsTable(s, ns, server);
    case Update(server, _, _, _, _) =>
      EmptyOk(ns);
      TouchedOk(TableOf(s, server), ns, e);
    case Access(server, _, _, _) =>
      EmptyOk(ns);
      TouchedOk(TableOf(s, server), ns, e);
    case _ =>
  }

  lemma EmptyOk(ns: iset<string>)
    ensures TableOk([], ns)
  {
  }

  lemma TablesOfMirrored(s: State, ns: iset<string>)
    requires Shape(s) && Mirrored(s, ns)
    ensures TablesOk(s.tables, ns)
  {
  }

  /** A step keeps everything the mirror rests on, and the mirror itself exactly as `Keeps`
      says. */
  lemma StepMirrors(s: State, ns: iset<string>, e: Event)
    requires Shape(s) && Mirrored(s, ns) && Fit(s, e, ns)
    ensures AllMirror(Step(s, e)) <==> Keeps(s, e)
    ensures Keeps(s, e) ==> Mirrored(Step(s, e), ns)
  {
    hide Coherent, SlotsSafe, TablesOk, Apart, AllMirror, Step, EventOver, Fit, Keeps;
    TablesOfMirrored(s, ns);
    FitIsOver(s, ns, e);
    StepAgrees(s, ns, e);
    StepKeepsSlots(s, e);
    ApartAfter(s, ns, e);
    TablesAfter(s, ns, e);
    StepMirrorsExactly(s, ns, e);
  }

  // ---- Runs -----------------------------------------------------------------------------------

  lemma StartMirrored(tables: map<int, seq<Meta>>, ns: iset<string>)
    requires OneSpelling(ns) && TablesOk(tables, ns)
    ensures Mirrored(Start(tables), ns)
  {
    hide TableOk, OneSpelling;
    StartAgrees(tables, ns);
  }

  ghost predicate AlwaysMirror(s: State, es: seq<Event>)
    requires Shape(s)
  {
    forall k | 0 <= k <= |es| :: AllMirror(Run(s, es[..k]))
  }

  ghost predicate KeepsAll(s: State, es: seq<Event>)
    requires Shape(s)
  {
    forall k | 0 <= k < |es| :: Keeps(Run(s, es[..k]), es[k])
  }

  /** The mirror over runs: in every state of a run each record's owner and access list equal,
      entry by entry, those of its row on its storage server, and the storage servers that are
      registered have no other rows, if and only if every step of the run keeps them so. */
  lemma {:induction false} RunMirrors(tables: map<int, seq<Meta>>, ns: iset<string>, es: seq<Event>)
    requires OneSpelling(ns) && TablesOk(tables, ns) && FitRun(Start(tables), es, ns)
    ensures AlwaysMirror(Start(tables), es) <==> KeepsAll(Start(tables), es)
    ensures KeepsAll(Start(tables), es) ==> Mirrored(Run(Start(tables), es), ns)
  {
    hide Mirrored, AllMirror, Fit, Keeps, Step, Start, TablesOk, OneSpelling;
    var s := Start(tables);
    if es == [] {
      StartMirrored(tables, ns);
      MirroredMirrors(s, ns);
      assert es[..0] == [];
    } else {
      hide AlwaysMirror, KeepsAll;
      var before := es[..|es| - 1];
      FitPrefix(s, es, ns);
      RunMirrors(tables, ns, before);
      RunPrefix(s, es);
      if KeepsAll(s, before) {
        StepMirrors(Run(s, before), ns, es[|es| - 1]);
      }
    }
  }

  lemma FitPrefix(s: State, es: seq<Event>, ns: iset<string>)
    requires Shape(s) && es != [] && FitRun(s, es, ns)
    ensures FitRun(s, es[..|es| - 1], ns) && Fit(Run(s, es[..|es| - 1]), es[|es| - 1], ns)
  {
    hide Fit, Run;
    var before := es[..|es| - 1];
    forall k | 0 <= k < |before| ensures Fit(Run(s, before[..k]), before[k], ns) {
      assert before[..k] == es[..k];
    }
  }

  lemma RunPrefix(s: State, es: seq<Event>)
    requires Shape(s) && es != []
    ensures var n, before := |es| - 1, es[..|es| - 1];
      (AlwaysMirror(s, es) <==> AlwaysMirror(s, before) && AllMirror(Run(s, es))) &&
      (KeepsAll(s, es) <==> KeepsAll(s, before) && Keeps(Run(s, before), es[n]))
  {
    hide Run, AllMirror, Keeps;
    var n, before := |es| - 1, es[..|es| - 1];
    assert forall k | 0 <= k <= n :: before[..k] == es[..k];
    assert es[..n + 1] == es && before[..n] == before;
  }

  // ---- Restarts change nothing ----------------------------------------------------------------

  /** The storage servers that are registered. */
  predicate Online(s: State, server: int) {
    Some(server) in s.holder
  }

  /** A row whose name leads to the path gives the permission. */
  ghost predicate RowOnAllows(s: State, server: int, path: string, user: string, permission: int) {
    exists m :: m in TableOf(s, server) && Clean(m.name) == path &&
      (m.owner == user || Acl.Allows(m.acl, user, permission))
  }

  /** What the registered storage servers' own tables say. */
  ghost predicate TablesAllow(s: State, path: string, user: string, permission: int) {
    exists server :: Online(s, server) && RowOnAllows(s, server, path, user, permission)
  }

  /** A permission check answers what the registered storage servers' tables say. */
  lemma CheckByTables(s: State, ns: iset<string>, name: string, user: string, permission: int)
    requires Shape(s) && Mirrored(s, ns)
    ensures Check(s.dir, name, user, permission) <==> TablesAllow(s, Clean(name), user, permission)
  {
    hide Mirrored, Clean, Acl.Allows, RowOf;
    var path := Clean(name);
    if Check(s.dir, name, user, permission) {
      RecordPlaced(s, ns, path);
      var i := s.dir[path].server;
      var k := RecordRow(s, ns, path);
      assert TableAt(s, i)[k] in TableOf(s, s.holder[i].value);
      assert Online(s, s.holder[i].value);
    }
    if server :| Online(s, server) && RowOnAllows(s, server, path, user, permission) {
      var m :| m in TableOf(s, server) && Clean(m.name) == path && (m.owner == user || Acl.Allows(m.acl, user, permission));
      RowHeld(s, ns, server, m);
    }
  }

  /** A row of a registered storage server is the record under its name. */
  lemma RowHeld(s: State, ns: iset<string>, server: int, m: Meta)
    requires Shape(s) && Mirrored(s, ns) && Online(s, server) && m in TableOf(s, server)
    ensures Clean(m.name) in s.dir && Same(s.dir[Clean(m.name)], m)
  {
    hide Coherent, RowOk, Clean, RowOf, Same;
    var i :| 0 <= i < MAX_SERVERS && s.holder[i] == Some(server);
    var t := TableOf(s, server);
    var k :| 0 <= k < |t| && t[k] == m;
    RowOfIs(t, k);
    assert Mirrors(s.dir, i, TableAt(s, i));
    assert Row(t, m.name) == Some(m) && InSlot(s.dir, i, m.name);
  }

  /** Name server restarts, removals, and storage servers that were registered at the outset
      coming back on a fresh socket once they have been removed. */
  predicate Returning(s0: State, s: State, e: Event) {
    match e
    case Restart => true
    case Remove(_) => true
    case Register(server, fd, _, _) => Online(s0, server) && !Online(s, server) && SlotOfSocket(s.slots, fd) == |s.slots|
    case _ => false
  }

  ghost predicate ReturningRun(s: State, es: seq<Event>)
    requires Shape(s)
  {
    forall k | 0 <= k < |es| :: Returning(s, Run(s, es[..k]), es[k])
  }

  /** A row of a registered storage server has its record in that server's slot. */
  lemma RowPlace(s: State, ns: iset<string>, server: int, name: string)
    requires Shape(s) && Mirrored(s, ns) && Online(s, server) && Row(TableOf(s, server), name).Some?
    ensures Clean(name) in s.dir && s.holder[s.dir[Clean(name)].server] == Some(server)
  {
    hide Coherent, TablesOk, Row, Clean;
    var i :| 0 <= i < MAX_SERVERS && s.holder[i] == Some(server);
    assert Mirrors(s.dir, i, TableAt(s, i));
    assert InSlot(s.dir, i, name);
  }

  /** A record has its row on the storage server in its slot. */
  lemma RecordPlace(s: State, ns: iset<string>, path: string)
    requires Shape(s) && Mirrored(s, ns) && path in s.dir
    ensures var h := s.holder[s.dir[path].server];
      h.Some? && Online(s, h.value) && Row(TableOf(s, h.value), s.dir[path].name).Some?
  {
    hide Coherent, TablesOk, Row, Clean;
    assert Mirrors(s.dir, s.dir[path].server, TableAt(s, s.dir[path].server));
  }

  /** The files of a storage server that comes back conflict with none. */
  lemma ReturnHasNoConflict(s0: State, s: State, ns: iset<string>, server: int)
    requires Shape(s0) && Shape(s) && Mirrored(s0, ns) && Mirrored(s, ns) && SameTables(s0, s)
    requires (forall x :: Online(s, x) ==> Online(s0, x)) && Online(s0, server) && !Online(s, server)
    ensures NoConflict(s.dir, TableOf(s, server))
  {
    hide Mirrored, Online, Clean;
    var t := TableOf(s, server);
    forall k | 0 <= k < |t|
      ensures Clean(t[k].name) !in s.dir
    {
      var path := Clean(t[k].name);
      RowPlace(s0, ns, server, t[k].name);
      if path in s.dir {
        SlotsOfMirrored(s, ns);
        RecordPlace(s, ns, path);
        RecordPlaced(s, ns, path);
        RowPlace(s0, ns, s.holder[s.dir[path].server].value, s.dir[path].name);
      }
    }
  }

  lemma SlotsOfMirrored(s: State, ns: iset<string>)
    requires Shape(s) && Mirrored(s, ns)
    ensures SlotsSafe(s) && Apart(s)
  {
  }

  predicate SameTables(s: State, s': State) {
    forall server | server in s.tables.Keys + s'.tables.Keys :: TableOf(s', server) == TableOf(s, server)
  }

  lemma RestartKeepsTables(s: State, ns: iset<string>, e: Event)
    requires Shape(s) && TablesOk(s.tables, ns) && (e.Restart? || e.Remove? || e.Register?)
    ensures SameTables(s, Step(s, e))
  {
    hide TablesOk, RebuildAll, Reloaded;
    if e.Register? {
      ReloadedIsTable(s, ns, e.server);
    }
  }

  lemma ReturningStep(s0: State, s: State, ns: iset<string>, e: Event)
    requires Shape(s0) && Shape(s) && Mirrored(s0, ns) && Mirrored(s, ns) && SameTables(s0, s)
    requires (forall x :: Online(s, x) ==> Online(s0, x)) && Returning(s0, s, e)
    ensures Mirrored(Step(s, e), ns) && SameTables(s0, Step(s, e))
    ensures forall x :: Online(Step(s, e), x) ==> Online(s0, x)
  {
    hide Mirrored, Coherent, SlotsSafe, Apart, AllMirror, TablesOk, Reloaded, RebuildAll, Purge, PurgedNames;
    if e.Register? {
      ReturnHasNoConflict(s0, s, ns, e.server);
    }
    StepMirrors(s, ns, e);
    TablesOfMirrored(s, ns);
    RestartKeepsTables(s, ns, e);
    SameTablesTrans(s0, s, Step(s, e));
    OnlineAfter(s, e);
  }

  lemma SameTablesTrans(s0: State, s: State, s': State)
    requires SameTables(s0, s) && SameTables(s, s')
    ensures SameTables(s0, s')
  {
    forall server
      ensures TableOf(s', server) == TableOf(s0, server)
    {
      assert server in s0.tables.Keys + s.tables.Keys || TableOf(s0, server) == TableOf(s, server);
      assert server in s.tables.Keys + s'.tables.Keys || TableOf(s, server) == TableOf(s', server);
    }
  }

  /** Only a registration puts a storage server into a slot. */
  lemma OnlineAfter(s: State, e: Event)
    requires Shape(s) && (e.Restart? || e.Remove? || e.Register?)
    ensures forall x :: Online(Step(s, e), x) ==> Online(s, x) || (e.Register? && x == e.server)
  {
    hide RebuildAll, Reloaded, Purge, PurgedNames;
  }

  lemma {:induction false} ReturningKeepsMirror(s: State, ns: iset<string>, es: seq<Event>)
    requires Shape(s) && Mirrored(s, ns) && ReturningRun(s, es)
    ensures var s' := Run(s, es);
      Mirrored(s', ns) && SameTables(s, s') && forall x :: Online(s', x) ==> Online(s, x)
  {
    hide Mirrored, Returning, Step, Online;
    if es != [] {
      var before := es[..|es| - 1];
      forall k | 0 <= k < |before| ensures Returning(s, Run(s, before[..k]), before[k]) {
        assert before[..k] == es[..k];
      }
      ReturningKeepsMirror(s, ns, before);
      ReturningStep(s, Run(s, before), ns, es[|es| - 1]);
    }
  }

  /** Restart changes no permission decision: after any sequence of name server restarts,
      removals and returns that ends with the same storage servers registered, in whatever
      slots, every check on every file answers as before. */
  lemma RestartsChangeNoDecision(s: State, ns: iset<string>, es: seq<Event>, name: string, user: string, permission: int)
    requires Shape(s) && Mirrored(s, ns) && ReturningRun(s, es)
    requires forall server :: Online(s, server) ==> Online(Run(s, es), server)
    ensures Check(Run(s, es).dir, name, user, permission) <==> Check(s.dir, name, user, permission)
  {
    hide Mirrored, Run, ReturningRun, SameTables, Check, Online;
    ReturningKeepsMirror(s, ns, es);
    SameDecisions(s, Run(s, es), ns, name, user, permission);
  }

  /** What a storage server last noted about a file is what the directory shows once the
      server registers: size, words and time of a write, and time and user of an access. */
  lemma NotesComeBack(s: State, ns: iset<string>, e: Event, fd: int, ip: string, port: int)
    requires Shape(s) && Mirrored(s, ns) && (e.Update? || e.Access?) && Fit(s, e, ns)
    requires Row(TableOf(s, e.server), e.name).Some? && FirstFree(s.slots) < |s.slots|
    requires NoConflict(s.dir, TableOf(s, e.server))
    ensures var dir := RegisterServer(Step(s, e), e.server, fd, ip, port).dir;
      Clean(e.name) in dir &&
      var r := dir[Clean(e.name)];
      (e.Update? ==> r.chars == e.size && r.words == e.words && r.modified == e.now) &&
      (e.Access? ==> r.accessed == e.now && r.accessedBy == e.user)
  {
    hide Mirrored, TableOk, Clean, RebuildAll, Reloaded, OneSpelling, Fit;
    var s1, t := Step(s, e), TableOf(s, e.server);
    TablesOfMirrored(s, ns);
    SpellingOfMirrored(s, ns);
    TablesAfter(s, ns, e);
    ReloadedIsTable(s, ns, e.server);
    ReloadedIsTable(s1, ns, e.server);
    NotedRow(t, ns, e);
    var t' := TableOf(s1, e.server);
    RegisteredRecords(s.dir, ns, FirstFree(s.slots), t', RowOf(t, e.name));
  }

  lemma SpellingOfMirrored(s: State, ns: iset<string>)
    requires Shape(s) && Mirrored(s, ns)
    ensures OneSpelling(ns)
  {
  }

  lemma NotedRow(t: seq<Meta>, ns: iset<string>, e: Event)
    requires TableOk(t, ns) && (e.Update? || e.Access?) && Row(t, e.name).Some?
    ensures var t' := if e.Update? then UpdateRow(t, e.name, e.size, e.words, e.now) else AccessRow(t, e.name, e.user, e.now);
      var k := RowOf(t, e.name);
      k < |t'| && t'[k].name == e.name &&
      (e.Update? ==> t'[k].size == e.size && t'[k].words == e.words && t'[k].modified == e.now) &&
      (e.Access? ==> t'[k].accessed == e.now && t'[k].accessedBy == e.user) &&
      forall dir :: NoConflict(dir, t) ==> NoConflict(dir, t')
  {
    hide RowOk, Clean;
  }

  /** Checks depend on the registered storage servers and their tables alone. */
  lemma SameDecisions(s: State, s': State, ns: iset<string>, name: string, user: string, permission: int)
    requires Shape(s) && Shape(s') && Mirrored(s, ns) && Mirrored(s', ns) && SameTables(s, s')
    requires forall server :: Online(s, server) <==> Online(s', server)
    ensures Check(s'.dir, name, user, permission) <==> Check(s.dir, name, user, permission)
  {
    hide Mirrored, Check, Clean, Online, Row;
    CheckByTables(s, ns, name, user, permission);
    CheckByTables(s', ns, name, user, permission);
    var path := Clean(name);
    forall server
      ensures RowOnAllows(s', server, path, user, permission) == RowOnAllows(s, server, path, user, permission)
    {
      assert server in s.tables.Keys + s'.tables.Keys || TableOf(s, server) == TableOf(s', server);
    }
  }

  // ---- Where the assumptions are needed -------------------------------------------------------

  /** A storage server that registers again before its old connection was found dead: all
      its files are refused as conflicts, and then purged with the old slot. */
  lemma LateRemovalLosesFiles(s: State, ns: iset<string>, i: nat, fd: int, ip: string, port: int, path: string)
    requires Shape(s) && Mirrored(s, ns) && i < MAX_SERVERS && s.holder[i].Some?
    requires fd != s.slots[i].fd && path in s.dir && s.dir[path].server == i
    ensures path !in RemoveServer(RegisterServer(s, s.holder[i].value, fd, ip, port), s.slots[i].fd).dir
  {
    hide Reloaded, RebuildAll, Coherent, TablesOk, AllMirror;
    var s1 := RegisterServer(s, s.holder[i].value, fd, ip, port);
    var j := FirstFree(s.slots);
    if j < |s.slots| {
      RebuiltServers(s.dir, j, Reloaded(s, s.holder[i].value));
    }
    assert path in s1.dir && s1.dir[path].server == i;
    OldSocket(s, i, fd, ip, port);
  }

  /** The old connection still leads to the old slot. */
  lemma OldSocket(s: State, i: nat, fd: int, ip: string, port: int)
    requires Shape(s) && SlotsSafe(s) && Apart(s) && i < MAX_SERVERS && s.holder[i].Some? && fd != s.slots[i].fd
    ensures SlotOfSocket(RegisterServer(s, s.holder[i].value, fd, ip, port).slots, s.slots[i].fd) == i
  {
    hide Reloaded, RebuildAll;
    var slots := RegisterServer(s, s.holder[i].value, fd, ip, port).slots;
    assert slots[i] == s.slots[i];
    assert forall k | 0 <= k < MAX_SERVERS && k != i && s.slots[k].active :: s.slots[k].fd != s.slots[i].fd;
  }

  /** The late return changes nothing exactly if the slot holds no file. */
  lemma LateReturnExactly(s: State, ns: iset<string>, i: nat, fd: int, ip: string, port: int)
    requires Shape(s) && Mirrored(s, ns) && i < MAX_SERVERS && s.holder[i].Some? && fd != s.slots[i].fd
    ensures var s' := RemoveServer(RegisterServer(s, s.holder[i].value, fd, ip, port), s.slots[i].fd);
      (forall f, u, p :: Check(s'.dir, f, u, p) <==> Check(s.dir, f, u, p)) <==>
      forall path :: path in s.dir ==> s.dir[path].server != i
  {
    hide Mirrored, RegisterServer, RemoveServer, Acl.Allows, Clean;
    var s' := RemoveServer(RegisterServer(s, s.holder[i].value, fd, ip, port), s.slots[i].fd);
    if path :| path in s.dir && s.dir[path].server == i {
      LateRemovalLosesFiles(s, ns, i, fd, ip, port, path);
      PathIsClean(s, ns, path);
      assert Check(s.dir, path, s.dir[path].owner, 0) && !Check(s'.dir, path, s.dir[path].owner, 0);
    } else {
      EmptyReturn(s, ns, i, fd, ip, port);
    }
  }

  lemma PathIsClean(s: State, ns: iset<string>, path: string)
    requires Shape(s) && Mirrored(s, ns) && path in s.dir
    ensures Clean(path) == path
  {
    hide Clean, Ascii;
    CleanAscii(path);
  }

  lemma EmptyReturn(s: State, ns: iset<string>, i: nat, fd: int, ip: string, port: int)
    requires Shape(s) && Mirrored(s, ns) && i < MAX_SERVERS && s.holder[i].Some? && fd != s.slots[i].fd
    requires forall path :: path in s.dir ==> s.dir[path].server != i
    ensures RemoveServer(RegisterServer(s, s.holder[i].value, fd, ip, port), s.slots[i].fd).dir == s.dir
  {
    hide Mirrored, SlotOfSocket, TableOk;
    EmptyTable(s, ns, i);
    SlotsOfMirrored(s, ns);
    OldSocket(s, i, fd, ip, port);
    assert RebuildAll(s.dir, FirstFree(s.slots), []) == s.dir;
    assert Purge(s.dir, i) == s.dir;
  }

  /** A server without records keeps no file. */
  lemma EmptyTable(s: State, ns: iset<string>, i: nat)
    requires Shape(s) && Mirrored(s, ns) && i < MAX_SERVERS && s.holder[i].Some?
    requires forall path :: path in s.dir ==> s.dir[path].server != i
    ensures Reloaded(s, s.holder[i].value) == []
  {
    hide Coherent, TableOk, Reloaded;
    var t := TableOf(s, s.holder[i].value);
    ReloadedIsTable(s, ns, s.holder[i].value);
    assert Mirrors(s.dir, i, t);
    FirstRow(t);
  }

  lemma FirstRow(t: seq<Meta>)
    ensures t == [] || Row(t, t[0].name).Some?
  {
  }

  /** A grant that does not reach the storage server holds until that server's next restart
      and is forgotten by it: every check then answers as it did before the grant. */
  lemma LostGrantIsForgotten(s: State, ns: iset<string>, name: string, user: string, permission: int, now: int,
      fd: int, ip: string, port: int)
    requires Shape(s) && Mirrored(s, ns) && Clean(name) in s.dir
    requires Acl.Granted(s.dir[Clean(name)].acl, user, permission).Some? && SlotOfSocket(s.slots, fd) == |s.slots|
    ensures var rec := s.dir[Clean(name)];
      var s1 := GrantEverywhere(s, name, rec.owner, user, permission, now, Lost(false));
      var s2 := RegisterServer(RemoveServer(s1, s.slots[rec.server].fd), s.holder[rec.server].value, fd, ip, port);
      Check(s1.dir, name, user, permission) &&
      forall f, u, p :: Check(s2.dir, f, u, p) <==> Check(s.dir, f, u, p)
  {
    hide Mirrored, RegisterServer, RemoveServer, GrantEverywhere, GrantFile, Acl.Granted, SlotOfSocket, Clean, Check;
    var s1 := GrantEverywhere(s, name, s.dir[Clean(name)].owner, user, permission, now, Lost(false));
    LostGrant(s, name, user, permission, now);
    LostChangeIsForgotten(s, ns, Clean(name), s1, fd, ip, port);
  }

  /** So does a removal: access that was taken away comes back with the restart. */
  lemma LostRevokeIsForgotten(s: State, ns: iset<string>, name: string, user: string, permission: int, now: int,
      fd: int, ip: string, port: int)
    requires Shape(s) && Mirrored(s, ns) && Clean(name) in s.dir
    requires Acl.Valid(s.dir[Clean(name)].acl) && user != s.dir[Clean(name)].owner
    requires SlotOfSocket(s.slots, fd) == |s.slots|
    ensures var rec := s.dir[Clean(name)];
      var s1 := RevokeEverywhere(s, name, rec.owner, user, now, Lost(false));
      var s2 := RegisterServer(RemoveServer(s1, s.slots[rec.server].fd), s.holder[rec.server].value, fd, ip, port);
      !Check(s1.dir, name, user, permission) &&
      forall f, u, p :: Check(s2.dir, f, u, p) <==> Check(s.dir, f, u, p)
  {
    hide Mirrored, RegisterServer, RemoveServer, RevokeEverywhere, RevokeFile, Acl.Revoked, SlotOfSocket, Clean, Check;
    var s1 := RevokeEverywhere(s, name, s.dir[Clean(name)].owner, user, now, Lost(false));
    LostRevoke(s, name, user, permission, now);
    LostChangeIsForgotten(s, ns, Clean(name), s1, fd, ip, port);
  }

  /** Only one record, and the cache, are not as they were. */
  ghost predicate OneChanged(s: State, path: string, s1: State) {
    s1 == s.(dir := s1.dir, cache := s1.cache) && path in s.dir && path in s1.dir &&
    s1.dir[path].server == s.dir[path].server &&
    forall p | p != path :: (p in s.dir <==> p in s1.dir) && (p in s.dir ==> s1.dir[p] == s.dir[p])
  }

  lemma LostGrant(s: State, name: string, user: string, permission: int, now: int)
    requires Shape(s) && Clean(name) in s.dir && Acl.Granted(s.dir[Clean(name)].acl, user, permission).Some?
    ensures var s1 := GrantEverywhere(s, name, s.dir[Clean(name)].owner, user, permission, now, Lost(false));
      OneChanged(s, Clean(name), s1) && Check(s1.dir, name, user, permission)
  {
    hide FindServer, Clean;
    var before := s.dir[Clean(name)].acl;
    var acl := Acl.Granted(before, user, permission).value;
    var k := Acl.IndexOf(before, user);
    assert acl[k].user == user && acl[k].permission == permission;
  }

  lemma LostRevoke(s: State, name: string, user: string, permission: int, now: int)
    requires Shape(s) && Clean(name) in s.dir
    requires Acl.Valid(s.dir[Clean(name)].acl) && user != s.dir[Clean(name)].owner
    ensures var s1 := RevokeEverywhere(s, name, s.dir[Clean(name)].owner, user, now, Lost(false));
      OneChanged(s, Clean(name), s1) && !Check(s1.dir, name, user, permission)
  {
    hide FindServer, Clean, Acl.Revoked, Acl.Allows, Acl.PermissionOf;
    var acl := s.dir[Clean(name)].acl;
    Acl.RevokedIsRemoval(acl, user, user);
    Acl.AllowsByEntry(Acl.Revoked(acl, user), user, permission);
  }

  /** A change of one record that its storage server did not hear of is gone after that
      server's restart. */
  lemma LostChangeIsForgotten(s: State, ns: iset<string>, path: string, s1: State, fd: int, ip: string, port: int)
    requires Shape(s) && Shape(s1) && Mirrored(s, ns) && OneChanged(s, path, s1)
    requires SlotOfSocket(s.slots, fd) == |s.slots|
    ensures 0 <= s.dir[path].server < MAX_SERVERS && s.holder[s.dir[path].server].Some?
    ensures var i := s.dir[path].server;
      var s2 := RegisterServer(RemoveServer(s1, s.slots[i].fd), s.holder[i].value, fd, ip, port);
      forall f, u, p :: Check(s2.dir, f, u, p) <==> Check(s.dir, f, u, p)
  {
    hide Mirrored, RegisterServer, RemoveServer, SlotOfSocket, Check;
    SlotsOfMirrored(s, ns);
    var i := s.dir[path].server;
    SocketSlot(s, ns, i);
    ForgottenDir(s, path, i, s1, s.slots[i].fd);
    SameRegistration(RemoveServer(s, s.slots[i].fd), RemoveServer(s1, s.slots[i].fd), s.holder[i].value, fd, ip, port);
    ServerRestart(s, ns, i, fd, ip, port);
  }

  lemma SameRegistration(s: State, s1: State, server: int, fd: int, ip: string, port: int)
    requires Shape(s) && Shape(s1) && s1.slots == s.slots && s1.dir == s.dir && s1.tables == s.tables
    ensures RegisterServer(s1, server, fd, ip, port).dir == RegisterServer(s, server, fd, ip, port).dir
  {
    hide Save, Load, RebuildAll;
  }

  /** Purging the slot of a changed record leaves no trace of the change. */
  lemma ForgottenDir(s: State, path: string, i: nat, s1: State, fd: int)
    requires Shape(s) && Shape(s1) && OneChanged(s, path, s1) && s.dir[path].server == i < MAX_SERVERS
    requires SlotOfSocket(s.slots, fd) == i
    ensures RemoveServer(s1, fd).dir == RemoveServer(s, fd).dir && RemoveServer(s1, fd).slots == RemoveServer(s, fd).slots
  {
    hide PurgedNames;
    assert Purge(s1.dir, i) == Purge(s.dir, i);
  }

  /** One storage server found dead, removed, started again and registered. */
  lemma ServerRestart(s: State, ns: iset<string>, i: nat, fd: int, ip: string, port: int)
    requires Shape(s) && Mirrored(s, ns) && i < MAX_SERVERS && s.holder[i].Some? && SlotOfSocket(s.slots, fd) == |s.slots|
    ensures SlotOfSocket(s.slots, s.slots[i].fd) == i
    ensures var s' := RegisterServer(RemoveServer(s, s.slots[i].fd), s.holder[i].value, fd, ip, port);
      forall f, u, p :: Check(s'.dir, f, u, p) <==> Check(s.dir, f, u, p)
  {
    hide Coherent, TablesOk, AllMirror, SameTables, Reloaded, RebuildAll, Check, Purge, PurgedNames,
      Mirrored, SlotOfSocket, FirstFree;
    SocketSlot(s, ns, i);
    var id := s.holder[i].value;
    var e1, e2 := Remove(s.slots[i].fd), Register(id, fd, ip, port);
    var s1 := Step(s, e1);
    var s2 := Step(s1, e2);
    assert SameTables(s, s) by {
      SameAsItself(s);
    }
    ReturningStep(s, s, ns, e1);
    assert s1.holder == s.holder[i := None] && !s1.slots[i].active;
    FreshSocket(s, i, fd);
    ReturningStep(s, s1, ns, e2);
    SlotsOfMirrored(s1, ns);
    BackOnline(s.holder, i, FirstFree(s1.slots), id);
    forall f, u, p ensures Check(s2.dir, f, u, p) <==> Check(s.dir, f, u, p) {
      SameDecisions(s, s2, ns, f, u, p);
    }
  }

  lemma FreshSocket(s: State, i: nat, fd: int)
    requires Shape(s) && i < MAX_SERVERS && SlotOfSocket(s.slots, fd) == |s.slots|
    ensures SlotOfSocket(s.slots[i := Released(s.slots[i])], fd) == |s.slots|
  {
  }

  /** One server leaves its place and takes an empty one. */
  lemma BackOnline(holder: seq<Option<int>>, i: nat, j: nat, server: int)
    requires i < |holder| && holder[i] == Some(server) && j < |holder| && holder[i := None][j] == None
    ensures forall x :: Some(x) in holder <==> Some(x) in holder[i := None][j := Some(server)]
  {
    var after := holder[i := None][j := Some(server)];
    forall x
      ensures Some(x) in holder <==> Some(x) in after
    {
      if k :| 0 <= k < |holder| && holder[k] == Some(x) {
        assert after[if k == i then j else k] == Some(x);
      }
    }
  }

  lemma SameAsItself(s: State)
    ensures SameTables(s, s)
  {
  }

  lemma SocketSlot(s: State, ns: iset<string>, i: nat)
    requires Shape(s) && Mirrored(s, ns) && i < MAX_SERVERS && s.holder[i].Some?
    ensures SlotOfSocket(s.slots, s.slots[i].fd) == i && s.slots[i].active
    ensures forall j | 0 <= j < MAX_SERVERS && j != i :: s.holder[j] != s.holder[i]
  {
  }
}
