/** The lookup cache in front of the directory: over all runs it answers what the directory
    alone would, exactly when no path is asked for under two spellings. */
module Coherence {
  import opened Text
  import opened Metadata
  import opened Directory
  import opened Registry
  import opened NameServer
  import Acl
  import Cache

  predicate Names(e: Event, name: string) {
    match e
    case Locate(n, _) => n == name
    case Create(n, _, _, _) => n == name
    case Delete(n, _, _) => n == name
    case Grant(n, _, _, _, _, _) => n == name
    case Revoke(n, _, _, _, _) => n == name
    case _ => false
  }

  /** Names in the request, or in a registering server's list, are among `ns`. */
  ghost predicate EventOver(s: State, e: Event, ns: iset<string>) {
    (forall name :: Names(e, name) ==> name in ns) &&
    (e.Register? ==> forall m :: m in Reloaded(s, e.server) ==> m.name in ns)
  }

  ghost predicate RunOver(s: State, es: seq<Event>, ns: iset<string>)
    requires Shape(s)
  {
    forall k | 0 <= k < |es| :: EventOver(Run(s, es[..k]), es[k], ns)
  }

  /** The trie skips some characters of a name; no two of these names differ in those only. */
  ghost predicate OneSpelling(ns: iset<string>) {
    forall a, b :: a in ns && b in ns && Clean(a) == Clean(b) ==> a == b
  }

  /** Records have a name that leads to their path. */
  ghost predicate Named(dir: Dir, ns: iset<string>) {
    forall path :: path in dir ==> dir[path].name in ns && Clean(dir[path].name) == path && dir[path].server >= 0
  }

  /** No name is cached twice, and each cached name is a live record's, on the same server. */
  ghost predicate Agrees(c: seq<Cache.Entry>, dir: Dir, ns: iset<string>) {
    Cache.NoTwice(c) &&
    forall k | 0 <= k < |c| && c[k].valid ::
      c[k].name in ns && Clean(c[k].name) in dir && dir[Clean(c[k].name)].server == c[k].server
  }

  ghost predicate Coherent(s: State, ns: iset<string>)
    requires Shape(s)
  {
    OneSpelling(ns) && Named(s.dir, ns) && Agrees(s.cache, s.dir, ns)
  }

  lemma AddedAgrees(c: seq<Cache.Entry>, dir: Dir, ns: iset<string>, name: string, now: int)
    requires Agrees(c, dir, ns) && name in ns && Clean(name) in dir && Cache.SlotOf(c, name) == |c| && c != []
    ensures Agrees(Cache.Added(c, name, dir[Clean(name)].server, now), dir, ns)
  {
    hide Clean;
  }

  /** A lookup answers what the directory alone would, and keeps the cache in step. */
  lemma FindAgrees(s: State, ns: iset<string>, name: string, now: int)
    requires Shape(s) && Coherent(s, ns) && name in ns
    ensures FindServer(s, name, now).1 == ServerOf(s.dir, name)
    ensures Coherent(FindServer(s, name, now).0, ns)
  {
    hide Clean, OneSpelling;
    var (c, hit) := Cache.Looked(s.cache, name, now);
    if hit == -1 && Clean(name) in s.dir {
      AddedAgrees(c, s.dir, ns, name, now);
    }
  }

  /** A cache in step stays so when records are added or changed in place. */
  lemma GrownAgrees(c: seq<Cache.Entry>, dir: Dir, dir': Dir, ns: iset<string>)
    requires Agrees(c, dir, ns)
    requires forall path :: path in dir ==> path in dir' && dir'[path].server == dir[path].server
    ensures Agrees(c, dir', ns)
  {
    hide Clean;
  }

  lemma PurgedAgrees(c: seq<Cache.Entry>, dir: Dir, ns: iset<string>, i: int)
    requires OneSpelling(ns) && Agrees(c, dir, ns) && Named(dir, ns)
    ensures Agrees(Cache.Dropped(c, PurgedNames(dir, i)), Purge(dir, i), ns) && Named(Purge(dir, i), ns)
  {
    hide Clean;
    var gone, c' := PurgedNames(dir, i), Cache.Dropped(c, PurgedNames(dir, i));
    assert forall path :: path in dir && dir[path].server == i ==> dir[path].name in gone;
    forall k | 0 <= k < |c| && c'[k].valid
      ensures Clean(c'[k].name) in Purge(dir, i) && c[k].valid
    {
      var path := Clean(c[k].name);
      assert dir[path].name == c[k].name && c[k].name !in gone;
    }
  }

  lemma DeletedAgrees(c: seq<Cache.Entry>, dir: Dir, ns: iset<string>, name: string)
    requires OneSpelling(ns) && Agrees(c, dir, ns) && Named(dir, ns) && name in ns && Clean(name) == name
    ensures Agrees(Cache.Invalidated(c, name), dir - {name}, ns) && Named(dir - {name}, ns)
  {
    hide Clean;
    var c' := Cache.Invalidated(c, name);
    forall k | 0 <= k < |c| && c'[k].valid
      ensures Clean(c'[k].name) != name && c'[k] == c[k]
    {
    }
  }

  lemma {:induction false} RebuiltNamed(dir: Dir, ns: iset<string>, i: nat, t: seq<Meta>)
    requires Named(dir, ns) && forall m :: m in t ==> m.name in ns
    ensures Named(RebuildAll(dir, i, t), ns)
  {
    hide Clean;
    if t != [] {
      RebuiltNamed(dir, ns, i, t[..|t| - 1]);
    }
  }

  lemma RemoveAgrees(s: State, ns: iset<string>, fd: int)
    requires Shape(s) && Coherent(s, ns)
    ensures Coherent(RemoveServer(s, fd), ns)
  {
    hide Agrees, Named, OneSpelling, PurgedNames, Purge, Cache.Dropped;
    PurgedAgrees(s.cache, s.dir, ns, SlotOfSocket(s.slots, fd));
  }

  lemma AddFileAgrees(s: State, ns: iset<string>, name: string, i: nat, user: string)
    requires Shape(s) && Coherent(s, ns) && name in ns
    ensures Named(AddFile(s.dir, name, i, user), ns) && Agrees(s.cache, AddFile(s.dir, name, i, user), ns)
  {
    hide Agrees, OneSpelling, Clean;
    GrownAgrees(s.cache, s.dir, AddFile(s.dir, name, i, user), ns);
  }

  lemma CreateAgrees(s: State, ns: iset<string>, name: string, user: string, now: int, outcome: Outcome)
    requires Shape(s) && Coherent(s, ns) && name in ns
    ensures Coherent(CreateFile(s, name, user, now, outcome), ns)
  {
    hide Agrees, Named, OneSpelling, AddFile, Purge, PurgedNames, FindServer, Next;
    FindAgrees(s, ns, name, now);
    var (s1, found) := FindServer(s, name, now);
    var i := Next(s1.slots, s1.next);
    if found == -1 && i.Some? {
      var s2 := s1.(next := Wrapped(i.value + 1, MAX_SERVERS));
      if outcome.Acked? {
        AddFileAgrees(s2, ns, name, i.value, user);
      } else {
        var t := MetaStore.AddRow(TableAt(s2, i.value), MetaStore.NewRow(name, 0, 0, now));
        RemoveAgrees(if outcome.carriedOut then WithTable(s2, i.value, t) else s2, ns, s2.slots[i.value].fd);
      }
    }
  }

  lemma DeleteAgrees(s: State, ns: iset<string>, name: string, user: string, outcome: Outcome)
    requires Shape(s) && Coherent(s, ns) && name in ns
    ensures Coherent(DeleteEverywhere(s, name, user, outcome), ns)
  {
    hide Agrees, OneSpelling, Clean, Ascii, Purge, PurgedNames, MetaStore.RemoveRow;
    var (dir, i) := DeleteFile(s.dir, name, user);
    if i >= 0 {
      CleanAscii(name);
      DeletedAgrees(s.cache, s.dir, ns, name);
      if IsActive(s, i) && outcome.Lost? {
        var s' := s.(dir := dir, cache := Cache.Invalidated(s.cache, name));
        var s'' := WithTable(s', i, MetaStore.RemoveRow(TableAt(s, i), name));
        RemoveAgrees(if outcome.carriedOut then s'' else s', ns, s.slots[i].fd);
      }
    }
  }

  /** A change of one record's list, then a lookup of its file. */
  lemma ChangeAgrees(s: State, ns: iset<string>, dir: Dir, name: string, now: int)
    requires Shape(s) && Coherent(s, ns) && name in ns && Named(dir, ns)
    requires forall path :: path in s.dir ==> path in dir && dir[path].server == s.dir[path].server
    ensures Coherent(FindServer(s.(dir := dir), name, now).0, ns)
  {
    hide Agrees, OneSpelling, Named, FindServer;
    GrownAgrees(s.cache, s.dir, dir, ns);
    FindAgrees(s.(dir := dir), ns, name, now);
  }

  lemma StepAgrees(s: State, ns: iset<string>, e: Event)
    requires Shape(s) && Coherent(s, ns) && EventOver(s, e, ns)
    ensures Coherent(Step(s, e), ns)
  {
    hide Agrees, OneSpelling, Clean, FindServer, CreateFile, DeleteEverywhere, Purge, PurgedNames, Reloaded, RebuildAll;
    assert forall name :: Names(e, name) ==> name in ns;
    match e
    case Locate(name, now) => FindAgrees(s, ns, name, now);
    case Create(name, user, now, outcome) => CreateAgrees(s, ns, name, user, now, outcome);
    case Delete(name, user, outcome) => DeleteAgrees(s, ns, name, user, outcome);
    case Grant(name, owner, user, permission, now, outcome) =>
      var dir := GrantFile(s.dir, name, owner, user, permission);
      if dir.Some? {
        ChangeAgrees(s, ns, dir.value, name, now);
      }
    case Revoke(name, owner, user, now, outcome) =>
      var dir := RevokeFile(s.dir, name, owner, user);
      if dir.Some? {
        ChangeAgrees(s, ns, dir.value, name, now);
      }
    case Register(server, fd, ip, port) =>
      var i, t := FirstFree(s.slots), Reloaded(s, server);
      RebuiltServers(s.dir, i, t);
      RebuiltNamed(s.dir, ns, i, t);
      GrownAgrees(s.cache, s.dir, RebuildAll(s.dir, i, t), ns);
    case Remove(fd) => RemoveAgrees(s, ns, fd);
    case Restart => StartAgrees(s.tables, ns);
    case _ =>
  }

  lemma StartAgrees(tables: map<int, seq<Meta>>, ns: iset<string>)
    requires OneSpelling(ns)
    ensures Coherent(Start(tables), ns)
  {
  }

  lemma {:induction false} RunAgrees(tables: map<int, seq<Meta>>, es: seq<Event>, ns: iset<string>)
    requires OneSpelling(ns) && RunOver(Start(tables), es, ns)
    ensures Coherent(Run(Start(tables), es), ns)
  {
    hide Coherent, OneSpelling, EventOver, Step, Start;
    var s := Start(tables);
    if es == [] {
      StartAgrees(tables, ns);
    } else {
      var before := es[..|es| - 1];
      forall k | 0 <= k < |before| ensures EventOver(Run(s, before[..k]), before[k], ns) {
        assert before[..k] == es[..k];
      }
      RunAgrees(tables, before, ns);
      StepAgrees(Run(s, before), ns, es[|es| - 1]);
    }
  }

  /** Cache coherence: after any run of requests, registrations, removals and restarts over
      names no two of which lead to one path, no name is cached twice, and a lookup through
      the cache finds what the directory alone would find. */
  lemma CacheCoherent(tables: map<int, seq<Meta>>, es: seq<Event>, ns: iset<string>, name: string, now: int)
    requires OneSpelling(ns) && RunOver(Start(tables), es, ns) && name in ns
    ensures var s := Run(Start(tables), es);
      Cache.NoTwice(s.cache) && FindServer(s, name, now).1 == ServerOf(s.dir, name)
  {
    RunAgrees(tables, es, ns);
    FindAgrees(Run(Start(tables), es), ns, name, now);
  }

  // ---- Two spellings ------------------------------------------------------------------------------

  /** A file found under a spelling that is not its record's name stays cached under it when
      its server is removed. */
  lemma OtherSpellingGoesStale(s: State, spelling: string, now: int, later: int)
    requires Shape(s) && Cache.SlotOf(s.cache, spelling) == |s.cache| && Clean(spelling) in s.dir
    requires var i := s.dir[Clean(spelling)].server;
      0 <= i < |s.slots| && SlotOfSocket(s.slots, s.slots[i].fd) == i && spelling !in PurgedNames(s.dir, i)
    ensures var i := s.dir[Clean(spelling)].server;
      var s' := RemoveServer(FindServer(s, spelling, now).0, s.slots[i].fd);
      ServerOf(s'.dir, spelling) == -1 && FindServer(s', spelling, later).1 == i
  {
    hide Clean, PurgedNames;
    var i := s.dir[Clean(spelling)].server;
    var v := Cache.Victim(s.cache, now);
    var c1 := Cache.Added(s.cache, spelling, i, now);
    assert c1[v] == Cache.Entry(spelling, i, true, now);
    var c2 := Cache.Dropped(c1, PurgedNames(s.dir, i));
    assert c2[v] == c1[v];
    assert forall k | 0 <= k < |c2| && c2[k].valid && c2[k].name == spelling :: k == v;
    assert Cache.SlotOf(c2, spelling) == v;
  }

  /** One storage server registers without files, `a` is created on it, looked up as `b`, and
      the server is removed. */
  function TwoSpellings(a: string, b: string): seq<Event> {
    [Register(0, 3, "", 0)] + [Create(a, "u", 0, Acked)] + [Locate(b, 0)] + [Remove(3)]
  }

  lemma RunSnoc(s: State, es: seq<Event>, e: Event)
    requires Shape(s)
    ensures Run(s, es + [e]) == Step(Run(s, es), e)
  {
    hide Step;
    assert (es + [e])[..|es|] == es;
  }

  /** The state after the file was created. */
  lemma Created(a: string)
    ensures var s := Step(Step(Start(map[]), Register(0, 3, "", 0)), Create(a, "u", 0, Acked));
      s.dir == map[Clean(a) := NewRec(a, 0, "u")] && s.slots[0] == Slot(true, 3, "", 0) &&
      forall k | 0 <= k < |s.cache| :: !s.cache[k].valid
  {
    hide Clean, MetaStore.AddRow, MetaStore.SetOwner, MetaStore.NewRow;
    var s0 := Start(map[]);
    NothingReloaded(s0);
    var s1 := Step(s0, Register(0, 3, "", 0));
    assert s1.slots[0] == Slot(true, 3, "", 0) && s1.dir == map[] && s1.cache == s0.cache;
    assert Cache.SlotOf(s1.cache, a) == |s1.cache|;
    assert FindServer(s1, a, 0) == (s1, -1);
    assert At(s1.slots, 0) && Next(s1.slots, 0) == Some(0);
    assert map[][Clean(a) := NewRec(a, 0, "u")] == map[Clean(a) := NewRec(a, 0, "u")];
  }

  lemma NothingReloaded(s: State)
    requires s.tables == map[]
    ensures Reloaded(s, 0) == [] && RebuildAll(s.dir, 0, []) == s.dir
  {
  }

  lemma TwoSpellingsGoStale(a: string, b: string)
    requires a != b && Clean(a) == Clean(b)
    ensures var s := Run(Start(map[]), TwoSpellings(a, b));
      ServerOf(s.dir, b) == -1 && FindServer(s, b, 0).1 == 0
  {
    hide Run, Step, Start, Clean;
    var s0 := Start(map[]);
    var e1, e2, e3, e4 := Register(0, 3, "", 0), Create(a, "u", 0, Acked), Locate(b, 0), Remove(3);
    RunNothing(s0);
    RunSnoc(s0, [], e1);
    assert [] + [e1] == [e1];
    RunSnoc(s0, [e1], e2);
    RunSnoc(s0, [e1] + [e2], e3);
    RunSnoc(s0, [e1] + [e2] + [e3], e4);
    var s := Run(s0, [e1] + [e2]);
    Created(a);
    NotCached(s.cache, b);
    assert PurgedNames(s.dir, 0) == {a};
    StepsAre(s, b);
    OtherSpellingGoesStale(s, b, 0, 0);
  }

  lemma RunNothing(s: State)
    requires Shape(s)
    ensures Run(s, []) == s
  {
  }

  lemma StepsAre(s: State, b: string)
    requires Shape(s)
    ensures Step(Step(s, Locate(b, 0)), Remove(3)) == RemoveServer(FindServer(s, b, 0).0, 3)
  {
  }

  lemma NotCached(c: seq<Cache.Entry>, name: string)
    requires forall k | 0 <= k < |c| :: !c[k].valid
    ensures Cache.SlotOf(c, name) == |c|
  {
  }

  lemma TwoSpellingsOver(a: string, b: string, ns: iset<string>)
    requires a in ns && b in ns
    ensures RunOver(Start(map[]), TwoSpellings(a, b), ns)
  {
    hide Run, Start;
    var s, es := Start(map[]), TwoSpellings(a, b);
    RunNothing(s);
    forall k | 0 <= k < |es| ensures EventOver(Run(s, es[..k]), es[k], ns) {
      if k == 0 {
        assert es[..0] == [];
        NoTables();
      }
    }
  }

  lemma NoTables()
    ensures Reloaded(Start(map[]), 0) == []
  {
  }

  /** The exact condition: every run over some names is coherent for all of them if and only
      if no two of them lead to one path. */
  lemma CoherentExactly(ns: iset<string>)
    ensures (forall tables, es, name, now :: RunOver(Start(tables), es, ns) && name in ns ==>
               FindServer(Run(Start(tables), es), name, now).1 == ServerOf(Run(Start(tables), es).dir, name))
            <==> OneSpelling(ns)
  {
    hide Run, Start, RunOver, FindServer, ServerOf, Clean;
    if OneSpelling(ns) {
      forall tables, es, name, now | RunOver(Start(tables), es, ns) && name in ns
        ensures FindServer(Run(Start(tables), es), name, now).1 == ServerOf(Run(Start(tables), es).dir, name)
      {
        CacheCoherent(tables, es, ns, name, now);
      }
    } else {
      var a, b :| a in ns && b in ns && Clean(a) == Clean(b) && a != b;
      TwoSpellingsGoStale(a, b);
      TwoSpellingsOver(a, b, ns);
    }
  }

  /** Names of ASCII characters are their own paths. */
  ghost function AsciiNames(): iset<string> {
    iset name: string | Ascii(name)
  }

  lemma AsciiOneSpelling()
    ensures OneSpelling(AsciiNames())
  {
    hide Ascii, Clean;
    forall a, b | a in AsciiNames() && b in AsciiNames() && Clean(a) == Clean(b) ensures a == b {
      CleanAscii(a);
      CleanAscii(b);
    }
  }

  // ---- What holds whatever the names -----------------------------------------------------------------

  /** No name is cached twice, and records and cached names point to slots. */
  ghost predicate Sane(s: State)
    requires Shape(s)
  {
    Cache.NoTwice(s.cache) && (forall k | 0 <= k < |s.cache| && s.cache[k].valid :: s.cache[k].server >= 0) &&
    forall path :: path in s.dir ==> s.dir[path].server >= 0
  }

  lemma FindSane(s: State, name: string, now: int)
    requires Shape(s) && Sane(s)
    ensures Sane(FindServer(s, name, now).0)
  {
    hide Clean;
  }

  lemma RemoveSane(s: State, fd: int)
    requires Shape(s) && Sane(s)
    ensures Sane(RemoveServer(s, fd))
  {
    hide PurgedNames;
    var i := SlotOfSocket(s.slots, fd);
    Cache.DropsMore(s.cache, PurgedNames(s.dir, i), {});
  }

  lemma CreateSane(s: State, name: string, user: string, now: int, outcome: Outcome)
    requires Shape(s) && Sane(s)
    ensures Sane(CreateFile(s, name, user, now, outcome))
  {
    hide Clean, FindServer, Next, RemoveServer, Cache.NoTwice;
    FindSane(s, name, now);
    var (s1, found) := FindServer(s, name, now);
    var i := Next(s1.slots, s1.next);
    if found == -1 && i.Some? && outcome.Lost? {
      var s2 := s1.(next := Wrapped(i.value + 1, MAX_SERVERS));
      var t := MetaStore.AddRow(TableAt(s2, i.value), MetaStore.NewRow(name, 0, 0, now));
      RemoveSane(if outcome.carriedOut then WithTable(s2, i.value, t) else s2, s2.slots[i.value].fd);
    }
  }

  lemma InvalidatedNoTwice(c: seq<Cache.Entry>, name: string)
    requires Cache.NoTwice(c)
    ensures Cache.NoTwice(Cache.Invalidated(c, name))
  {
  }

  lemma DeleteSane(s: State, name: string, user: string, outcome: Outcome)
    requires Shape(s) && Sane(s)
    ensures Sane(DeleteEverywhere(s, name, user, outcome))
  {
    hide Ascii, RemoveServer, Cache.NoTwice, MetaStore.RemoveRow;
    InvalidatedNoTwice(s.cache, name);
    var (dir, i) := DeleteFile(s.dir, name, user);
    if i >= 0 && IsActive(s, i) && outcome.Lost? {
      var s' := s.(dir := dir, cache := Cache.Invalidated(s.cache, name));
      var s'' := WithTable(s', i, MetaStore.RemoveRow(TableAt(s, i), name));
      RemoveSane(if outcome.carriedOut then s'' else s', s.slots[i].fd);
    }
  }

  lemma StepSane(s: State, e: Event)
    requires Shape(s) && Sane(s)
    ensures Sane(Step(s, e))
  {
    hide Clean, FindServer, CreateFile, DeleteEverywhere, RemoveServer, Reloaded, RebuildAll, Cache.NoTwice;
    match e
    case Locate(name, now) => FindSane(s, name, now);
    case Create(name, user, now, outcome) => CreateSane(s, name, user, now, outcome);
    case Delete(name, user, outcome) => DeleteSane(s, name, user, outcome);
    case Grant(name, owner, user, permission, now, outcome) =>
      var dir := GrantFile(s.dir, name, owner, user, permission);
      if dir.Some? {
        FindSane(s.(dir := dir.value), name, now);
      }
    case Revoke(name, owner, user, now, outcome) =>
      var dir := RevokeFile(s.dir, name, owner, user);
      if dir.Some? {
        FindSane(s.(dir := dir.value), name, now);
      }
    case Register(server, fd, ip, port) => RebuiltServers(s.dir, FirstFree(s.slots), Reloaded(s, server));
    case Remove(fd) => RemoveSane(s, fd);
    case Restart => StartSane(s.tables);
    case _ =>
  }

  lemma StartSane(tables: map<int, seq<Meta>>)
    ensures Sane(Start(tables))
  {
  }

  /** After any run at all, whatever its names, no name is cached twice, and records and
      cached names point to slots. */
  lemma {:induction false} RunSane(tables: map<int, seq<Meta>>, es: seq<Event>)
    ensures Sane(Run(Start(tables), es))
  {
    hide Sane, Step, Start;
    if es == [] {
      StartSane(tables);
    } else {
      RunSane(tables, es[..|es| - 1]);
      StepSane(Run(Start(tables), es[..|es| - 1]), es[|es| - 1]);
    }
  }
}
