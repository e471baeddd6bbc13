/** New files go round the storage servers: the pointer of the registry over runs of the name
    server. */
module RoundRobin {
  import opened Text
  import opened Metadata
  import opened Directory
  import opened Registry
  import opened NameServer
  import opened Coherence
  import opened NameRequests
  import Cache

  lemma {:induction false} RunConcat(s: State, a: seq<Event>, b: seq<Event>)
    requires Shape(s)
    ensures Run(s, a + b) == Run(Run(s, a), b)
  {
    hide Step;
    if b == [] {
      assert a + b == a;
    } else {
      var n := |b| - 1;
      assert (a + b)[..|a + b| - 1] == a + b[..n];
      RunConcat(s, a, b[..n]);
    }
  }

  lemma RunOne(s: State, e: Event)
    requires Shape(s)
    ensures Run(s, [e]) == Step(s, e)
  {
    hide Step;
    assert [e][..0] == [];
  }

  /** Acknowledged creations of new files, no two under one path. */
  ghost predicate NewFiles(dir: Dir, cs: seq<Event>, ns: iset<string>) {
    (forall k | 0 <= k < |cs| :: cs[k].Create? && cs[k].outcome == Acked && cs[k].name in ns && Clean(cs[k].name) !in dir) &&
    forall j, k | 0 <= j < k < |cs| :: Clean(cs[j].name) != Clean(cs[k].name)
  }

  /** One creation takes the next slot and moves the pointer behind it. */
  lemma CreationStep(s: State, ns: iset<string>, e: Event)
    requires Shape(s) && Coherent(s, ns) && e.Create? && NewFiles(s.dir, [e], ns) && Next(s.slots, s.next).Some?
    ensures var i, s' := Next(s.slots, s.next).value, Step(s, e);
      s'.slots == s.slots && s'.next == Wrapped(i + 1, MAX_SERVERS) && Coherent(s', ns) &&
      s'.dir == s.dir[Clean(e.name) := NewRec(e.name, i, e.user)]
  {
    hide Clean, Agrees, OneSpelling, Named, Next, FindServer;
    assert [e][0] == e;
    CreateAgrees(s, ns, e.name, e.user, e.now, e.outcome);
    FindAgrees(s, ns, e.name, e.now);
  }

  lemma NewFilesAfter(dir: Dir, e: Event, rest: seq<Event>, ns: iset<string>, r: Rec)
    requires e.Create? && NewFiles(dir, [e] + rest, ns)
    ensures NewFiles(dir, [e], ns) && NewFiles(dir[Clean(e.name) := r], rest, ns)
  {
    hide Clean;
    var cs := [e] + rest;
    assert cs[0] == e && forall k | 0 <= k < |rest| :: cs[k + 1] == rest[k];
  }

  /** The files are recorded in these slots, in order. */
  ghost predicate Placed(dir: Dir, cs: seq<Event>, r: seq<nat>)
    requires forall k | 0 <= k < |cs| :: cs[k].Create?
  {
    |r| == |cs| && forall k | 0 <= k < |cs| :: Clean(cs[k].name) in dir && dir[Clean(cs[k].name)].server == r[k]
  }

  ghost predicate Extends(dir: Dir, dir': Dir) {
    forall path :: path in dir ==> path in dir' && dir'[path] == dir[path]
  }

  lemma PlacedFirst(dir: Dir, e: Event, rest: seq<Event>, i: nat, r: seq<nat>)
    requires e.Create? && (forall k | 0 <= k < |rest| :: rest[k].Create?) && Placed(dir, rest, r)
    requires Clean(e.name) in dir && dir[Clean(e.name)].server == i
    ensures var cs := [e] + rest; (forall k | 0 <= k < |cs| :: cs[k].Create?) && Placed(dir, cs, [i] + r)
  {
    hide Clean;
    var cs := [e] + rest;
    assert cs[0] == e && forall k | 0 < k < |cs| :: cs[k] == rest[k - 1];
  }

  /** Consecutive creations take the slots that as many choices from the pointer give. */
  lemma {:induction false} CreationsChoose(s: State, ns: iset<string>, cs: seq<Event>)
    requires Shape(s) && Coherent(s, ns) && NewFiles(s.dir, cs, ns) && exists i :: 0 <= i < |s.slots| && s.slots[i].active
    ensures Extends(s.dir, Run(s, cs).dir) && Placed(Run(s, cs).dir, cs, Choices(s.slots, s.next, |cs|))
    decreases |cs|
  {
    hide Clean, Coherent, Step, Next, Placed, Run;
    if cs == [] {
      NothingPlaced(s);
    } else {
      var e, rest := cs[0], cs[1..];
      assert cs == [e] + rest;
      SomeServer(s.slots, s.next);
      var i, s1 := Next(s.slots, s.next).value, Step(s, e);
      NewFilesAfter(s.dir, e, rest, ns, NewRec(e.name, i, e.user));
      CreationStep(s, ns, e);
      RunConcat(s, [e], rest);
      RunOne(s, e);
      hide NewFiles;
      CreationsChoose(s1, ns, rest);
      assert Clean(e.name) in s1.dir && s1.dir[Clean(e.name)].server == i;
      PlacedFirst(Run(s, cs).dir, e, rest, i, Choices(s.slots, s1.next, |rest|));
    }
  }

  lemma NothingPlaced(s: State)
    requires Shape(s)
    ensures Run(s, []) == s && Placed(s.dir, [], Choices(s.slots, s.next, 0))
  {
  }

  lemma {:induction false} ActiveCount(slots: seq<Slot>, p: nat)
    requires p <= |slots| && slots != []
    ensures Active(slots, p, |slots|) == |set i | p <= i < |slots| && slots[i].active|
    decreases |slots| - p
  {
    var all := set i | p <= i < |slots| && slots[i].active;
    if p < |slots| {
      ActiveCount(slots, p + 1);
      var rest := set i | p + 1 <= i < |slots| && slots[i].active;
      assert p !in rest && all == if slots[p].active then rest + {p} else rest;
      hide Active;
    } else {
      assert all == {};
    }
  }

  /** Round robin over runs: after any run over names no two of which lead to one path, as many
      acknowledged creations of new files as there are storage servers put one file on each. */
  lemma EachServerOnce(tables: map<int, seq<Meta>>, es: seq<Event>, ns: iset<string>, cs: seq<Event>)
    requires OneSpelling(ns) && RunOver(Start(tables), es, ns)
    requires forall k | 0 <= k < |cs| ::
      cs[k].Create? && cs[k].outcome == Acked && cs[k].name in ns && Clean(cs[k].name) !in Run(Start(tables), es).dir
    requires forall j, k | 0 <= j < k < |cs| :: Clean(cs[j].name) != Clean(cs[k].name)
    requires var s := Run(Start(tables), es); |cs| == |set i | 0 <= i < |s.slots| && s.slots[i].active|
    ensures var s, s' := Run(Start(tables), es), Run(Start(tables), es + cs);
      (forall k | 0 <= k < |cs| :: Clean(cs[k].name) in s'.dir) &&
      (forall j, k | 0 <= j < k < |cs| :: s'.dir[Clean(cs[j].name)].server != s'.dir[Clean(cs[k].name)].server) &&
      forall i | 0 <= i < |s.slots| ::
        s.slots[i].active <==> exists k :: 0 <= k < |cs| && s'.dir[Clean(cs[k].name)].server == i
  {
    hide Run, Start, RunOver, Clean, Coherent, OneSpelling, Choices, Active;
    var s := Run(Start(tables), es);
    RunAgrees(tables, es, ns);
    RunConcat(Start(tables), es, cs);
    ActiveCount(s.slots, 0);
    RoundRobinFair(s.slots, s.next);
    if cs != [] {
      var active := set i | 0 <= i < |s.slots| && s.slots[i].active;
      assert active != {};
      CreationsChoose(s, ns, cs);
      var r := Choices(s.slots, s.next, |cs|);
      forall i: nat | i < |s.slots|
        ensures i in r <==> exists k :: 0 <= k < |cs| && Run(s, cs).dir[Clean(cs[k].name)].server == i
      {
        if i in r {
          var k :| 0 <= k < |r| && r[k] == i;
          assert Run(s, cs).dir[Clean(cs[k].name)].server == i;
        }
      }
    }
  }

  /** And in turn: of two new files in a row, the second goes to the first storage server behind
      the one of the first, going round. */
  lemma ServersInTurn(s: State, ns: iset<string>, a: Event, b: Event)
    requires Shape(s) && Coherent(s, ns) && exists i :: 0 <= i < |s.slots| && s.slots[i].active
    requires a.Create? && a.outcome == Acked && a.name in ns && Clean(a.name) !in s.dir
    requires b.Create? && b.outcome == Acked && b.name in ns && Clean(b.name) !in s.dir && Clean(a.name) != Clean(b.name)
    ensures var n, s' := |s.slots|, Step(Step(s, a), b);
      Clean(a.name) in s'.dir && Clean(b.name) in s'.dir &&
      var i, j := s'.dir[Clean(a.name)].server, s'.dir[Clean(b.name)].server;
      0 <= i < n && 0 <= j < n && s.slots[j].active &&
      if i < j then forall k | i < k < j :: !s.slots[k].active
      else forall k | 0 <= k < n && (k < j || i < k) :: !s.slots[k].active
  {
    hide Clean, Coherent, Step, Next;
    SomeServer(s.slots, s.next);
    CreationStep(s, ns, a);
    var i, s1 := Next(s.slots, s.next).value, Step(s, a);
    SomeServer(s1.slots, s1.next);
    CreationStep(s1, ns, b);
    NextInTurn(s.slots, i);
  }

  lemma NextInTurn(slots: seq<Slot>, i: nat)
    requires i < |slots| && Next(slots, Wrapped(i + 1, |slots|)).Some?
    ensures var n, j := |slots|, Next(slots, Wrapped(i + 1, |slots|)).value;
      if i < j then forall k | i < k < j :: !slots[k].active
      else forall k | 0 <= k < n && (k < j || i < k) :: !slots[k].active
  {
    var n, j := |slots|, Next(slots, Wrapped(i + 1, |slots|)).value;
    var start := Wrapped(i + 1, n);
    var q := Scan(slots, start, start + n);
    assert j == Wrapped(q, n);
    forall k: nat | k < n && if i < j then i < k < j else k < j || i < k
      ensures !slots[k].active
    {
      assert !At(slots, if k < start then k + n else k);
    }
  }
}
