/** The name server and its storage servers as one state machine: each client request, each
    registration with its file sync, and each removal is one step. */
module NameServer {
  import opened Text
  import opened Metadata
  import opened Directory
  import opened Registry
  import opened MetaStore
  import Acl
  import Cache

  /** `holder` and `origin` are histories: the storage server in a slot, and the storage
      server a record was created on or registered by. */
  datatype State = State(
    dir: Dir, cache: seq<Cache.Entry>, slots: seq<Slot>, next: nat, tables: map<int, seq<Meta>>,
    holder: seq<Option<int>>, origin: map<string, int>)

  /** How a request to a storage server ends: answered, or with the connection lost, before
      or after the server carried it out. */
  datatype Outcome = Acked | Lost(carriedOut: bool)

  datatype Event =
    | Locate(name: string, now: int)
    | Create(name: string, user: string, now: int, outcome: Outcome)
    | Delete(name: string, user: string, outcome: Outcome)
    | Grant(name: string, owner: string, user: string, permission: int, now: int, outcome: Outcome)
    | Revoke(name: string, owner: string, user: string, now: int, outcome: Outcome)
    | Register(server: int, fd: int, ip: string, port: int)
    | Remove(fd: int)
    | Restart
    | Update(server: int, name: string, size: int, words: int, now: int)
    | Access(server: int, name: string, user: string, now: int)

  ghost predicate Shape(s: State) {
    |s.slots| == |s.holder| == MAX_SERVERS && |s.cache| == Cache.SIZE && s.next < MAX_SERVERS
  }

  function Idle(): seq<Slot> {
    seq(MAX_SERVERS, _ => Slot(false, -1, "", 0))
  }

  /** A name server that has just started; the storage servers keep their tables. */
  function Start(tables: map<int, seq<Meta>>): (s: State)
    ensures Shape(s)
  {
    State(map[], seq(Cache.SIZE, _ => Cache.Entry("", 0, false, 0)), Idle(), 0, tables, seq(MAX_SERVERS, _ => None), map[])
  }

  function TableOf(s: State, server: int): seq<Meta> {
    if server in s.tables then s.tables[server] else []
  }

  /** The table of the storage server in a slot. */
  function TableAt(s: State, i: nat): seq<Meta>
    requires i < |s.holder|
  {
    if s.holder[i].Some? then TableOf(s, s.holder[i].value) else []
  }

  function WithTable(s: State, i: nat, t: seq<Meta>): State
    requires i < |s.holder|
  {
    if s.holder[i].Some? then s.(tables := s.tables[s.holder[i].value := t]) else s
  }

  // ---- Parts of a request ---------------------------------------------------------------------

  /** `search_find_file`: the cache first, then the trie, whose answer is cached. */
  ghost function FindServer(s: State, name: string, now: int): (r: (State, int))
    requires Shape(s)
    ensures Shape(r.0) && r.0 == s.(cache := r.0.cache)
  {
    var (cache, hit) := Cache.Looked(s.cache, name, now);
    if hit != -1 then (s.(cache := cache), hit)
    else
      var server := ServerOf(s.dir, name);
      (s.(cache := if server != -1 then Cache.Added(cache, name, server, now) else cache), server)
  }

  /** `remove_storage_server`: free the slot, then purge its files. */
  function RemoveServer(s: State, fd: int): (r: State)
    requires Shape(s)
    ensures Shape(r) && r.tables == s.tables
  {
    var i := SlotOfSocket(s.slots, fd);
    if i == |s.slots| then s
    else s.(slots := s.slots[i := Released(s.slots[i])], holder := s.holder[i := None],
            dir := Purge(s.dir, i), cache := Cache.Dropped(s.cache, PurgedNames(s.dir, i)))
  }

  function IsActive(s: State, i: int): bool {
    0 <= i < |s.slots| && s.slots[i].active
  }

  predicate Arrives(outcome: Outcome) {
    outcome.Acked? || outcome.carriedOut
  }

  // ---- Requests -------------------------------------------------------------------------------

  /** The file does not exist: choose a server, have it create the file, record the file,
      and send the owner after it. */
  function CreateOn(s: State, i: nat, name: string, user: string, now: int, outcome: Outcome): (r: State)
    requires Shape(s) && i < MAX_SERVERS
    ensures Shape(r)
  {
    var t := AddRow(TableAt(s, i), NewRow(name, 0, 0, now));
    match outcome
    case Acked =>
      var path := Clean(name);
      WithTable(s, i, SetOwner(t, name, user)).(
        dir := AddFile(s.dir, name, i, user),
        origin := if path !in s.dir && s.holder[i].Some? then s.origin[path := s.holder[i].value] else s.origin)
    case Lost(carriedOut) =>
      RemoveServer(if carriedOut then WithTable(s, i, t) else s, s.slots[i].fd)
  }

  ghost function CreateFile(s: State, name: string, user: string, now: int, outcome: Outcome): (r: State)
    requires Shape(s)
    ensures Shape(r)
  {
    var (s', found) := FindServer(s, name, now);
    var i := Next(s'.slots, s'.next);
    if found != -1 || i.None? then s'
    else CreateOn(s'.(next := Wrapped(i.value + 1, MAX_SERVERS)), i.value, name, user, now, outcome)
  }

  /** The record goes first, then the cached name, then the file on its server. */
  function DeleteEverywhere(s: State, name: string, user: string, outcome: Outcome): (r: State)
    requires Shape(s)
    ensures Shape(r)
  {
    var (dir, i) := DeleteFile(s.dir, name, user);
    if i < 0 then s
    else
      var s' := s.(dir := dir, cache := Cache.Invalidated(s.cache, name));
      if !IsActive(s, i) then s'
      else
        var s'' := WithTable(s', i, RemoveRow(TableAt(s, i), name));
        match outcome
        case Acked => s''
        case Lost(carriedOut) => RemoveServer(if carriedOut then s'' else s', s.slots[i].fd)
  }

  /** The name server's list changes first. Whether the storage server answers is not looked
      at, so a lost connection leaves it registered. */
  ghost function GrantEverywhere(s: State, name: string, owner: string, user: string, permission: int,
      now: int, outcome: Outcome): (r: State)
    requires Shape(s)
    ensures Shape(r)
  {
    var dir := GrantFile(s.dir, name, owner, user, permission);
    if dir.None? then s
    else
      var (s', i) := FindServer(s.(dir := dir.value), name, now);
      if IsActive(s', i) && Arrives(outcome) then WithTable(s', i, SetAcl(TableAt(s', i), name, user, permission)) else s'
  }

  ghost function RevokeEverywhere(s: State, name: string, owner: string, user: string, now: int,
      outcome: Outcome): (r: State)
    requires Shape(s)
    ensures Shape(r)
  {
    var dir := RevokeFile(s.dir, name, owner, user);
    if dir.None? then s
    else
      var (s', i) := FindServer(s.(dir := dir.value), name, now);
      if IsActive(s', i) && Arrives(outcome) then WithTable(s', i, RemoveAcl(TableAt(s', i), name, user)) else s'
  }

  // ---- Registration ---------------------------------------------------------------------------

  /** What a storage server knows after it started again from its text file. */
  function Reloaded(s: State, server: int): seq<Meta> {
    Load(Save(TableOf(s, server)), MAX_FILES)
  }

  /** The files of a registering server, in the order it sends them. */
  function RebuildAll(dir: Dir, i: int, t: seq<Meta>): Dir {
    if t == [] then dir else Rebuild(RebuildAll(dir, i, t[..|t| - 1]), i, t[|t| - 1])
  }

  function PathsOf(t: seq<Meta>): set<string> {
    set m | m in t :: Clean(m.name)
  }

  /** The files of the table that the registration put into slot `i` come from its server. */
  function OriginAfter(s: State, dir: Dir, i: int, server: int, t: seq<Meta>): map<string, int> {
    s.origin + map path | path in PathsOf(t) && path in dir && dir[path].server == i :: server
  }

  /** A storage server starts, takes the first free slot, and sends its files. */
  function RegisterServer(s: State, server: int, fd: int, ip: string, port: int): (r: State)
    requires Shape(s)
    ensures Shape(r)
  {
    var t, i := Reloaded(s, server), FirstFree(s.slots);
    var s' := s.(tables := s.tables[server := t]);
    if i == |s.slots| then s'
    else
      var dir := RebuildAll(s.dir, i, t);
      s'.(slots := s.slots[i := Slot(true, fd, ip, port)], holder := s.holder[i := Some(server)],
          dir := dir, origin := OriginAfter(s, dir, i, server, t))
  }

  // ---- Runs -----------------------------------------------------------------------------------

  ghost function Step(s: State, e: Event): (r: State)
    requires Shape(s)
    ensures Shape(r)
  {
    match e
    case Locate(name, now) => FindServer(s, name, now).0
    case Create(name, user, now, outcome) => CreateFile(s, name, user, now, outcome)
    case Delete(name, user, outcome) => DeleteEverywhere(s, name, user, outcome)
    case Grant(name, owner, user, permission, now, outcome) => GrantEverywhere(s, name, owner, user, permission, now, outcome)
    case Revoke(name, owner, user, now, outcome) => RevokeEverywhere(s, name, owner, user, now, outcome)
    case Register(server, fd, ip, port) => RegisterServer(s, server, fd, ip, port)
    case Remove(fd) => RemoveServer(s, fd)
    case Restart => Start(s.tables)
    case Update(server, name, size, words, now) =>
      s.(tables := s.tables[server := UpdateRow(TableOf(s, server), name, size, words, now)])
    case Access(server, name, user, now) =>
      s.(tables := s.tables[server := AccessRow(TableOf(s, server), name, user, now)])
  }

  ghost function Run(s: State, es: seq<Event>): (r: State)
    requires Shape(s)
    ensures Shape(r)
  {
    if es == [] then s else Step(Run(s, es[..|es| - 1]), es[|es| - 1])
  }

  // ---- Slot reuse -----------------------------------------------------------------------------

  /** Every record points to an active slot, and came from the very server now in it. */
  ghost predicate SlotsSafe(s: State)
    requires Shape(s)
  {
    (forall i | 0 <= i < MAX_SERVERS :: s.slots[i].active <==> s.holder[i].Some?) &&
    forall path :: path in s.dir ==>
      IsActive(s, s.dir[path].server) && path in s.origin &&
      s.holder[s.dir[path].server] == Some(s.origin[path])
  }

  lemma RemoveKeepsSlots(s: State, fd: int)
    requires Shape(s) && SlotsSafe(s)
    ensures SlotsSafe(RemoveServer(s, fd))
  {
  }

  lemma {:induction false} RebuiltServers(dir: Dir, i: int, t: seq<Meta>)
    ensures var dir' := RebuildAll(dir, i, t);
      (forall path :: path in dir ==> path in dir' && dir'[path].server == dir[path].server) &&
      forall path :: path in dir' && path !in dir ==> dir'[path].server == i && path in PathsOf(t)
  {
    hide Clean;
    if t != [] {
      assert forall m :: m in t[..|t| - 1] ==> m in t;
      assert t[|t| - 1] in t;
      RebuiltServers(dir, i, t[..|t| - 1]);
    }
  }

  lemma StepKeepsSlots(s: State, e: Event)
    requires Shape(s) && SlotsSafe(s)
    ensures SlotsSafe(Step(s, e))
  {
    hide CreateOn, DeleteEverywhere, RegisterServer, RemoveServer, Clean, Acl.Granted, Acl.Revoked, Next,
      Start;
    match e
    case Create(name, user, now, outcome) =>
      var s', i := FindServer(s, name, now).0, Next(s.slots, s.next);
      if i.Some? && FindServer(s, name, now).1 == -1 {
        CreateKeepsSlots(s'.(next := Wrapped(i.value + 1, MAX_SERVERS)), i.value, name, user, now, outcome);
      }
    case Delete(name, user, outcome) => DeleteKeepsSlots(s, name, user, outcome);
    case Register(server, fd, ip, port) => RegisterKeepsSlots(s, server, fd, ip, port);
    case Remove(fd) => RemoveKeepsSlots(s, fd);
    case Grant(name, owner, user, permission, now, outcome) => GrantKeepsSlots(s, name, owner, user, permission, now, outcome);
    case Revoke(name, owner, user, now, outcome) => RevokeKeepsSlots(s, name, owner, user, now, outcome);
    case Restart => StartKeepsSlots(s.tables);
    case _ =>
  }

  lemma StartKeepsSlots(tables: map<int, seq<Meta>>)
    ensures SlotsSafe(Start(tables))
  {
  }

  lemma GrantKeepsSlots(s: State, name: string, owner: string, user: string, permission: int, now: int,
      outcome: Outcome)
    requires Shape(s) && SlotsSafe(s)
    ensures SlotsSafe(GrantEverywhere(s, name, owner, user, permission, now, outcome))
  {
    hide FindServer, Clean, Acl.Granted, SetAcl;
  }

  lemma RevokeKeepsSlots(s: State, name: string, owner: string, user: string, now: int, outcome: Outcome)
    requires Shape(s) && SlotsSafe(s)
    ensures SlotsSafe(RevokeEverywhere(s, name, owner, user, now, outcome))
  {
    hide FindServer, Clean, Acl.Revoked, RemoveAcl;
  }

  lemma CreateKeepsSlots(s: State, i: nat, name: string, user: string, now: int, outcome: Outcome)
    requires Shape(s) && SlotsSafe(s) && IsActive(s, i)
    ensures SlotsSafe(CreateOn(s, i, name, user, now, outcome))
  {
    if outcome.Lost? {
      var t := AddRow(TableAt(s, i), NewRow(name, 0, 0, now));
      RemoveKeepsSlots(if outcome.carriedOut then WithTable(s, i, t) else s, s.slots[i].fd);
    }
  }

  lemma DeleteKeepsSlots(s: State, name: string, user: string, outcome: Outcome)
    requires Shape(s) && SlotsSafe(s)
    ensures SlotsSafe(DeleteEverywhere(s, name, user, outcome))
  {
    var (dir, i) := DeleteFile(s.dir, name, user);
    if i >= 0 && outcome.Lost? {
      var s' := s.(dir := dir, cache := Cache.Invalidated(s.cache, name));
      var s'' := WithTable(s', i, RemoveRow(TableAt(s, i), name));
      assert SlotsSafe(s') && SlotsSafe(s'');
      RemoveKeepsSlots(if outcome.carriedOut then s'' else s', s.slots[i].fd);
    }
  }

  lemma RegisterKeepsSlots(s: State, server: int, fd: int, ip: string, port: int)
    requires Shape(s) && SlotsSafe(s)
    ensures SlotsSafe(RegisterServer(s, server, fd, ip, port))
  {
    hide Reloaded, RebuildAll, Clean;
    var i := FirstFree(s.slots);
    if i < |s.slots| {
      RebuiltServers(s.dir, i, Reloaded(s, server));
    }
  }

  /** Slot-reuse safety: in every reachable state each record points to an active slot and
      was created on or registered by the very server now in that slot. */
  lemma {:induction false} SlotReuseIsSafe(tables: map<int, seq<Meta>>, es: seq<Event>)
    ensures SlotsSafe(Run(Start(tables), es))
  {
    if es != [] {
      SlotReuseIsSafe(tables, es[..|es| - 1]);
      StepKeepsSlots(Run(Start(tables), es[..|es| - 1]), es[|es| - 1]);
    }
  }
}
