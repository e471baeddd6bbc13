/** The name server's request handlers over the trie, the cache and the slot table: each one
    takes its state changes in the order of the code, and is one step of the state machine. */
module Handlers {
  import opened Text
  import opened Metadata
  import opened Directory
  import opened Registry
  import opened MetaStore
  import opened NameServer
  import opened Coherence
  import Acl
  import Cache
  import Trie
  import TrieWalks

  class Server {
    const trie: Trie.FileTrie
    const cache: Cache.FileCache
    const registry: SlotTable
    /** The storage server at the other end of each slot's connection, and the table each
        storage server keeps. */
    var holder: seq<Option<int>>
    var tables: map<int, seq<Meta>>
    ghost var origin: map<string, int>

    /** The parts are in order and share no memory. */
    ghost predicate Wired()
      reads this, trie, trie.repr, registry, cache
    {
      trie.Valid() && cache.Valid() && registry.Valid() && |holder| == MAX_SERVERS &&
      this !in trie.repr && trie !in trie.repr && registry !in trie.repr && cache !in trie.repr &&
      cache.slots !in trie.repr && registry.slots !in trie.repr
    }

    ghost function View(): (s: State)
      reads this, trie, cache.slots, registry, registry.slots
    {
      State(trie.dir, cache.slots[..], registry.slots[..], registry.next, tables, holder, origin)
    }

    /** And no name is cached twice, as every run keeps it. */
    ghost predicate Valid()
      reads this, trie, trie.repr, registry, cache, cache.slots, registry.slots
    {
      Wired() && Shape(View()) && Sane(View())
    }

    constructor (tables: map<int, seq<Meta>>)
      ensures Valid() && View() == Start(tables)
    {
      hide Trie.FileTrie.Valid;
      trie := new Trie.FileTrie();
      cache := new Cache.FileCache();
      registry := new SlotTable();
      this.tables := tables;
      holder, origin := seq(MAX_SERVERS, _ => None), map[];
      new;
      assert registry.slots[..] == Idle();
      StartSane(tables);
    }

    /** `search_find_file`. */
    method Find(name: string, now: int) returns (server: int)
      requires Wired()
      modifies cache.slots
      ensures Wired() && Shape(old(View())) && (View(), server) == FindServer(old(View()), name, now)
    {
      hide trie.Valid, Cache.Looked, Cache.Added, ServerOf;
      server := cache.Lookup(name, now);
      if server != -1 {
        return;
      }
      server := trie.FindServer(name);
      if server != -1 {
        cache.Add(name, server, now);
      }
    }

    /** `remove_storage_server`. */
    method RemoveServer(fd: int)
      requires Valid()
      modifies `holder, trie`records, trie`dir, trie.nodes.Values`file, cache.slots, registry.slots
      ensures Valid() && View() == NameServer.RemoveServer(old(View()), fd)
    {
      hide trie.Valid, Sane, NameServer.RemoveServer;
      RemoveSane(View(), fd);
      CacheOfSane(View());
      Free(fd);
    }

    method Free(fd: int)
      requires Wired() && Cache.NoTwice(cache.slots[..])
      modifies `holder, trie`records, trie`dir, trie.nodes.Values`file, cache.slots, registry.slots
      ensures Wired() && Shape(old(View())) && View() == NameServer.RemoveServer(old(View()), fd)
    {
      hide trie.Valid, Cache.Dropped, Purge, PurgedNames, Cache.NoTwice;
      trie.OwnedNow();
      var i := registry.Remove(fd);
      if i != -1 {
        holder := holder[i := None];
        TrieWalks.PurgeServer(trie, i, cache);
      }
    }

    /** The storage server behind slot `i` carries out a command on its table. */
    method Ask(i: nat, t: seq<Meta>)
      requires |holder| == MAX_SERVERS && i < MAX_SERVERS
      modifies `tables
      ensures View() == WithTable(old(View()), i, t)
    {
      if holder[i].Some? {
        tables := tables[holder[i].value := t];
      }
    }

    function PeerTable(i: nat): (t: seq<Meta>)
      requires i < |holder|
      reads this
    {
      if holder[i].Some? && holder[i].value in tables then tables[holder[i].value] else []
    }

    /** A connection found broken in a request, before or after the command was carried out. */
    method Fail(i: nat, t: seq<Meta>, carriedOut: bool)
      requires Wired() && i < MAX_SERVERS && Cache.NoTwice(cache.slots[..])
      modifies `tables, `holder, trie`records, trie`dir, trie.nodes.Values`file, cache.slots, registry.slots
      ensures Wired() && Shape(old(View()))
      ensures var s := old(View());
        View() == NameServer.RemoveServer(if carriedOut then WithTable(s, i, t) else s, s.slots[i].fd)
    {
      hide trie.Valid, NameServer.RemoveServer, Cache.NoTwice;
      if carriedOut {
        Ask(i, t);
      }
      Free(registry.slots[i].fd);
    }

    /** The part of `handle_create_request` behind the choice of a server. */
    method CreateAt(i: nat, name: string, user: string, now: int, outcome: Outcome)
      requires Wired() && i < MAX_SERVERS && Cache.NoTwice(cache.slots[..])
      modifies this, trie, trie.repr, cache.slots, registry.slots
      ensures Wired() && Shape(old(View())) && View() == CreateOn(old(View()), i, name, user, now, outcome)
    {
      hide trie.Valid, NameServer.RemoveServer, Clean, AddFile, AddRow, SetOwner, NewRow, Cache.NoTwice;
      trie.OwnedNow();
      ghost var s := View();
      var created := AddRow(PeerTable(i), NewRow(name, 0, 0, now));
      assert PeerTable(i) == TableAt(s, i);
      if outcome.Lost? {
        Fail(i, created, outcome.carriedOut);
      } else {
        Created(i, name, user, created);
      }
    }

    /** The storage server has the file: record it, and send the owner after it. */
    method Created(i: nat, name: string, user: string, created: seq<Meta>)
      requires Wired() && i < MAX_SERVERS
      modifies this, trie, trie.repr
      ensures Wired() && Shape(old(View()))
      ensures var s := old(View()); var path := Clean(name);
        View() == WithTable(s, i, SetOwner(created, name, user)).(
          dir := AddFile(s.dir, name, i, user),
          origin := if path !in s.dir && s.holder[i].Some? then s.origin[path := s.holder[i].value] else s.origin)
    {
      hide trie.Valid, Clean, AddFile, SetOwner;
      ghost var s := View();
      trie.OwnedNow();
      Ask(i, created);
      trie.Add(name, i, user);
      origin := if Clean(name) !in s.dir && holder[i].Some? then origin[Clean(name) := holder[i].value] else origin;
      Ask(i, SetOwner(created, name, user));
    }

    /** `handle_create_request`. */
    method Create(name: string, user: string, now: int, outcome: Outcome)
      requires Valid()
      modifies this, trie, trie.repr, cache.slots, registry, registry.slots
      ensures Valid() && View() == CreateFile(old(View()), name, user, now, outcome)
    {
      hide trie.Valid, FindServer, CreateOn, Next, Cache.NoTwice;
      ghost var s := View();
      FindSane(s, name, now);
      CreateSane(s, name, user, now, outcome);
      var found := Find(name, now);
      if found != -1 {
        return;
      }
      var i := registry.NextForNewFile();
      if i == -1 {
        return;
      }
      CreateAt(i, name, user, now, outcome);
    }

    /** `handle_delete_request`. */
    method Delete(name: string, user: string, outcome: Outcome) returns (code: int)
      requires Valid()
      modifies this, trie, trie.repr, cache.slots, registry.slots
      ensures Valid() && View() == DeleteEverywhere(old(View()), name, user, outcome)
      ensures code == DeleteFile(old(View()).dir, name, user).1
    {
      hide trie.Valid, NameServer.RemoveServer, DeleteFile, RemoveRow, Cache.Invalidated, Cache.NoTwice;
      ghost var s := View();
      DeleteSane(s, name, user, outcome);
      InvalidatedNoTwice(s.cache, name);
      trie.OwnedNow();
      code := trie.Delete(name, user);
      DeleteFails(s.dir, name, user);
      if code < 0 {
        return;
      }
      cache.Invalidate(name);
      if code >= MAX_SERVERS || !registry.slots[code].active {
        return;
      }
      var gone := RemoveRow(PeerTable(code), name);
      assert PeerTable(code) == TableAt(s, code);
      if outcome.Lost? {
        Fail(code, gone, outcome.carriedOut);
      } else {
        Ask(code, gone);
      }
    }

    /** `handle_add_access`. */
    method AddAccess(name: string, owner: string, user: string, permission: int, now: int, outcome: Outcome)
      requires Valid()
      modifies this, trie, trie.repr, cache.slots
      ensures Valid()
      ensures View() == GrantEverywhere(old(View()), name, owner, user, permission, now, outcome)
    {
      hide trie.Valid, Sane, FindServer, GrantFile, SetAcl;
      ghost var s := View();
      StepSane(s, Event.Grant(name, owner, user, permission, now, outcome));
      trie.OwnedNow();
      var ok := trie.Grant(name, owner, user, permission);
      if !ok {
        return;
      }
      assert View() == s.(dir := trie.dir);
      var i := Find(name, now);
      if 0 <= i < MAX_SERVERS && registry.slots[i].active && Arrives(outcome) {
        assert PeerTable(i) == TableAt(View(), i);
        Ask(i, SetAcl(PeerTable(i), name, user, permission));
      }
    }

    /** `handle_rem_access`. */
    method RemoveAccess(name: string, owner: string, user: string, now: int, outcome: Outcome)
      requires Valid()
      modifies this, trie, trie.repr, cache.slots
      ensures Valid()
      ensures View() == RevokeEverywhere(old(View()), name, owner, user, now, outcome)
    {
      hide trie.Valid, Sane, FindServer, RevokeFile, RemoveAcl;
      ghost var s := View();
      StepSane(s, Event.Revoke(name, owner, user, now, outcome));
      trie.OwnedNow();
      var ok := trie.Revoke(name, owner, user);
      if !ok {
        return;
      }
      assert View() == s.(dir := trie.dir);
      var i := Find(name, now);
      if 0 <= i < MAX_SERVERS && registry.slots[i].active && Arrives(outcome) {
        assert PeerTable(i) == TableAt(View(), i);
        Ask(i, RemoveAcl(PeerTable(i), name, user));
      }
    }

    /** A storage server starts from its text file and connects; `handle_storage_server_connection`
        gives it a slot, then takes its files one message at a time. */
    method Register(store: Store, server: int, fd: int, ip: string, port: int)
      requires Valid() && store.Valid() && store.Table() == TableOf(View(), server)
      requires store !in trie.repr && store.rows !in trie.repr
      modifies this, trie, trie.repr, registry.slots, store, store.rows
      ensures Valid() && View() == RegisterServer(old(View()), server, fd, ip, port)
      ensures store.count <= store.rows.Length && store.Table() == TableOf(View(), server)
    {
      hide trie.Valid, Sane, Load, Save, RebuildAll, RegisterServer;
      StepSane(View(), Event.Register(server, fd, ip, port));
      store.ReadDisk();
      Connect(store, server, fd, ip, port);
    }

    /** The connection of a storage server that has just read its text file. */
    method Connect(store: Store, server: int, fd: int, ip: string, port: int)
      requires Wired() && Shape(View()) && store.count <= store.rows.Length && store.Table() == Reloaded(View(), server)
      requires store !in trie.repr && store.rows !in trie.repr
      modifies this, trie, trie.repr, registry.slots
      ensures Wired() && View() == RegisterServer(old(View()), server, fd, ip, port)
      ensures store.Table() == old(store.Table()) == TableOf(View(), server)
    {
      hide trie.Valid, Load, Save, RebuildAll, OriginAfter;
      ghost var s, t := View(), store.Table();
      tables := tables[server := store.rows[..store.count]];
      var i := registry.Register(fd, ip, port);
      if i == -1 {
        return;
      }
      holder := holder[i := Some(server)];
      SendFiles(i, store);
      origin := OriginAfter(s, trie.dir, i, server, t);
    }

    method SendFiles(i: nat, store: Store)
      requires Wired() && store !in trie.repr && store.rows !in trie.repr && store.count <= store.rows.Length
      modifies trie, trie.repr
      ensures Wired() && trie.dir == RebuildAll(old(trie.dir), i, store.Table()) && store.Table() == old(store.Table())
    {
      hide trie.Valid, Rebuild;
      ghost var dir, t := trie.dir, store.Table();
      var k := 0;
      while k < store.count
        invariant 0 <= k <= store.count == |t| <= store.rows.Length && store.Table() == t
        invariant Wired() && fresh(trie.repr - old(trie.repr)) && trie.dir == RebuildAll(dir, i, t[..k])
      {
        trie.RebuildFile(i, store.rows[k]);
        RebuildNext(dir, i, t, k);
        k := k + 1;
      }
      assert t[..k] == t;
    }
  }

  lemma RebuildNext(dir: Dir, i: int, t: seq<Meta>, k: nat)
    requires k < |t|
    ensures RebuildAll(dir, i, t[..k + 1]) == Rebuild(RebuildAll(dir, i, t[..k]), i, t[k])
  {
    hide Rebuild;
    assert t[..k + 1][..k] == t[..k];
  }

  lemma DeleteFails(dir: Dir, name: string, user: string)
    requires forall path :: path in dir ==> dir[path].server >= 0
    ensures DeleteFile(dir, name, user).1 < 0 ==> DeleteFile(dir, name, user).0 == dir
  {
  }

  lemma CacheOfSane(s: State)
    requires Shape(s) && Sane(s)
    ensures Cache.NoTwice(s.cache)
  {
  }
}
