/** The name server's lookup cache: sixteen slots scanned and overwritten in place, the
    least recently used one evicted. */
module Cache {
  import opened Text

  const SIZE: nat := 16

  datatype Entry = Entry(name: string, server: int, valid: bool, used: int)

  // ---- The cache as a list of slots -----------------------------------------------------------

  /** First valid slot of a name, or the number of slots. */
  function SlotOf(c: seq<Entry>, name: string): (i: nat)
    ensures i <= |c|
    ensures i < |c| ==> c[i].valid && c[i].name == name
    ensures forall k | 0 <= k < i :: !(c[k].valid && c[k].name == name)
  {
    if c == [] || (c[0].valid && c[0].name == name) then 0 else 1 + SlotOf(c[1..], name)
  }

  /** A lookup: the slots with the hit's time refreshed, and the server index or -1. */
  function Looked(c: seq<Entry>, name: string, now: int): (seq<Entry>, int) {
    var i := SlotOf(c, name);
    if i < |c| then (c[i := c[i].(used := now)], c[i].server) else (c, -1)
  }

  /** What the eviction scan picks: the first invalid slot, else the first of the slots
      that are oldest among those older than now, else slot 0. */
  predicate IsVictim(c: seq<Entry>, now: int, v: nat) {
    v < |c| &&
    (if !c[v].valid then forall k | 0 <= k < v :: c[k].valid
     else
       (forall k | 0 <= k < |c| :: c[k].valid) &&
       (if c[v].used < now
        then (forall k | 0 <= k < |c| :: c[v].used <= c[k].used) && (forall k | 0 <= k < v :: c[v].used < c[k].used)
        else v == 0 && forall k | 0 <= k < |c| :: c[k].used >= now))
  }

  lemma VictimIsUnique(c: seq<Entry>, now: int, v: nat, w: nat)
    requires IsVictim(c, now, v) && IsVictim(c, now, w)
    ensures v == w
  {
  }

  lemma {:induction false} VictimExists(c: seq<Entry>, now: int) returns (v: nat)
    requires c != []
    ensures IsVictim(c, now, v)
  {
    if i :| 0 <= i < |c| && !c[i].valid {
      v := FirstInvalid(c, i);
    } else {
      v := Oldest(c, |c|);
      if c[v].used >= now {
        v := 0;
      }
    }
  }

  lemma SomeVictim(c: seq<Entry>, now: int)
    requires c != []
    ensures exists v: nat :: IsVictim(c, now, v)
  {
    var _ := VictimExists(c, now);
  }

  lemma {:induction false} FirstInvalid(c: seq<Entry>, i: nat) returns (v: nat)
    requires i < |c| && !c[i].valid
    ensures v < |c| && !c[v].valid && forall k | 0 <= k < v :: c[k].valid
  {
    if j :| 0 <= j < i && !c[j].valid {
      v := FirstInvalid(c, j);
    } else {
      v := i;
    }
  }

  lemma {:induction false} Oldest(c: seq<Entry>, n: nat) returns (v: nat)
    requires 0 < n <= |c|
    ensures v < n && (forall k | 0 <= k < n :: c[v].used <= c[k].used) && (forall k | 0 <= k < v :: c[v].used < c[k].used)
  {
    v := 0;
    if n > 1 {
      v := Oldest(c, n - 1);
      if c[n - 1].used < c[v].used {
        v := n - 1;
      }
    }
  }

  ghost function Victim(c: seq<Entry>, now: int): (v: nat)
    requires c != []
    ensures IsVictim(c, now, v)
  {
    SomeVictim(c, now);
    var v: nat :| IsVictim(c, now, v);
    v
  }

  ghost function Added(c: seq<Entry>, name: string, server: int, now: int): seq<Entry>
    requires c != []
  {
    c[Victim(c, now) := Entry(name, server, true, now)]
  }

  function Invalidated(c: seq<Entry>, name: string): seq<Entry> {
    var i := SlotOf(c, name);
    if i < |c| then c[i := c[i].(valid := false)] else c
  }

  ghost predicate NoTwice(c: seq<Entry>) {
    forall i, j | 0 <= i < j < |c| && c[i].valid && c[j].valid :: c[i].name != c[j].name
  }

  // ---- Histories ---------------------------------------------------------------------------------

  datatype Op =
    | Look(name: string, now: int)
    | Put(name: string, server: int, now: int)
    | Drop(name: string)

  ghost function Apply(c: seq<Entry>, op: Op): seq<Entry>
    requires c != []
  {
    match op
    case Look(name, now) => Looked(c, name, now).0
    case Put(name, server, now) => Added(c, name, server, now)
    case Drop(name) => Invalidated(c, name)
  }

  ghost function After(ops: seq<Op>): (c: seq<Entry>)
    ensures |c| == SIZE
  {
    if ops == [] then seq(SIZE, _ => Entry("", 0, false, 0)) else Apply(After(ops[..|ops| - 1]), ops[|ops| - 1])
  }

  /** The clock at the end of a history that began at time 0. */
  function Clock(ops: seq<Op>): int {
    if ops == [] then 0
    else if ops[|ops| - 1].Drop? then Clock(ops[..|ops| - 1])
    else ops[|ops| - 1].now
  }

  /** The clock does not run backwards, and a name is put only after it was missed. */
  ghost predicate Regular(ops: seq<Op>) {
    ops == [] ||
    var before, op := ops[..|ops| - 1], ops[|ops| - 1];
    Regular(before) && (!op.Drop? ==> Clock(before) <= op.now) && (op.Put? ==> SlotOf(After(before), op.name) == SIZE)
  }

  /** When a name was last asked for or stored. */
  function LastUse(ops: seq<Op>, name: string): Option<int> {
    if ops == [] then None
    else
      var op := ops[|ops| - 1];
      if !op.Drop? && op.name == name then Some(op.now) else LastUse(ops[..|ops| - 1], name)
  }

  lemma {:induction false} LastUseInPast(ops: seq<Op>, name: string)
    requires Regular(ops) && LastUse(ops, name).Some?
    ensures LastUse(ops, name).value <= Clock(ops)
  {
    var op := ops[|ops| - 1];
    if op.Drop? || op.name != name {
      LastUseInPast(ops[..|ops| - 1], name);
    }
  }

  /** A slot's time is the last use of its name. */
  lemma {:induction false} TimesAreLastUses(ops: seq<Op>)
    requires Regular(ops)
    ensures NoTwice(After(ops))
    ensures forall k | 0 <= k < SIZE && After(ops)[k].valid :: LastUse(ops, After(ops)[k].name) == Some(After(ops)[k].used)
  {
    if ops != [] {
      var before, op := ops[..|ops| - 1], ops[|ops| - 1];
      TimesAreLastUses(before);
      var c, c' := After(before), After(ops);
      forall k | 0 <= k < SIZE && c'[k].valid
        ensures LastUse(ops, c'[k].name) == Some(c'[k].used)
      {
        if op.Look? {
          assert SlotOf(c, op.name) <= k || c[k].name != op.name;
        }
      }
    }
  }

  /** Eviction takes the least recently used name: whatever happened before, an entry that
      has to give way was last used no later than any other cached name. */
  lemma EvictsLeastRecentlyUsed(ops: seq<Op>, now: int, k: nat)
    requires Regular(ops) && Clock(ops) <= now && k < SIZE
    requires forall i | 0 <= i < SIZE :: After(ops)[i].valid
    ensures var c := After(ops); var v := Victim(c, now);
      LastUse(ops, c[v].name).Some? && LastUse(ops, c[k].name).Some? &&
      LastUse(ops, c[v].name).value <= LastUse(ops, c[k].name).value <= now
  {
    TimesAreLastUses(ops);
    forall i | 0 <= i < SIZE
      ensures After(ops)[i].used <= now
    {
      LastUseInPast(ops, After(ops)[i].name);
    }
  }

  /** While a slot is free nothing is evicted. */
  lemma FreeSlotFirst(c: seq<Entry>, name: string, server: int, now: int, other: string)
    requires NoTwice(c) && c != [] && other != name && SlotOf(c, other) < |c| && exists k | 0 <= k < |c| :: !c[k].valid
    ensures var i := SlotOf(c, other); SlotOf(Added(c, name, server, now), other) == i && Added(c, name, server, now)[i] == c[i]
  {
    var i, c' := SlotOf(c, other), Added(c, name, server, now);
    assert c'[i] == c[i];
  }

  /** Several names invalidated. */
  function Dropped(c: seq<Entry>, names: set<string>): (r: seq<Entry>)
    ensures |r| == |c|
    ensures forall k | 0 <= k < |c| :: r[k] == if c[k].valid && c[k].name in names then c[k].(valid := false) else c[k]
  {
    seq(|c|, k requires 0 <= k < |c| => if c[k].valid && c[k].name in names then c[k].(valid := false) else c[k])
  }

  /** Invalidating names one after another, in any order, drops them all, because no name
      is cached twice. */
  lemma InvalidatedDrops(c: seq<Entry>, names: set<string>, name: string)
    requires NoTwice(c)
    ensures Invalidated(Dropped(c, names), name) == Dropped(c, names + {name})
  {
    var d := Dropped(c, names);
    var i := SlotOf(d, name);
    forall k | 0 <= k < |c|
      ensures Invalidated(d, name)[k] == Dropped(c, names + {name})[k]
    {
    }
  }

  lemma DropsMore(c: seq<Entry>, names: set<string>, more: set<string>)
    ensures Dropped(Dropped(c, names), more) == Dropped(c, names + more)
    ensures NoTwice(c) ==> NoTwice(Dropped(c, names))
  {
  }

  lemma DropsNothing(c: seq<Entry>)
    ensures Dropped(c, {}) == c
  {
  }

  // ---- The cache in place ---------------------------------------------------------------------

  class FileCache {
    const slots: array<Entry>

    ghost predicate Valid()
      reads this
    {
      slots.Length == SIZE
    }

    constructor ()
      ensures Valid() && fresh(slots) && slots[..] == seq(SIZE, _ => Entry("", 0, false, 0))
    {
      slots := new Entry[SIZE](_ => Entry("", 0, false, 0));
    }

    method Lookup(name: string, now: int) returns (server: int)
      requires Valid()
      modifies slots
      ensures (slots[..], server) == Looked(old(slots[..]), name, now)
    {
      ghost var c := slots[..];
      var i := 0;
      while i < SIZE
        invariant i <= SIZE && slots[..] == c
        invariant forall k | 0 <= k < i :: !(c[k].valid && c[k].name == name)
      {
        if slots[i].valid && slots[i].name == name {
          slots[i] := slots[i].(used := now);
          return slots[i].server;
        }
        i := i + 1;
      }
      return -1;
    }

    method Add(name: string, server: int, now: int)
      requires Valid()
      modifies slots
      ensures slots[..] == Added(old(slots[..]), name, server, now)
    {
      ghost var c := slots[..];
      var victim, oldest := 0, now;
      var i := 0;
      while i < SIZE && slots[i].valid
        invariant i <= SIZE && victim < SIZE
        invariant forall k | 0 <= k < i :: c[k].valid && c[k].used >= oldest
        invariant if oldest < now then victim < i && c[victim].used == oldest && forall k | 0 <= k < victim :: c[k].used > oldest
                  else oldest == now && victim == 0
      {
        if slots[i].used < oldest {
          victim, oldest := i, slots[i].used;
        }
        i := i + 1;
      }
      if i < SIZE {
        victim := i;
      }
      assert IsVictim(c, now, victim);
      VictimIsUnique(c, now, victim, Victim(c, now));
      slots[victim] := Entry(name, server, true, now);
    }

    method Invalidate(name: string)
      requires Valid()
      modifies slots
      ensures slots[..] == Invalidated(old(slots[..]), name)
    {
      ghost var c := slots[..];
      var i := 0;
      while i < SIZE
        invariant i <= SIZE && slots[..] == c
        invariant forall k | 0 <= k < i :: !(c[k].valid && c[k].name == name)
      {
        if slots[i].valid && slots[i].name == name {
          slots[i] := slots[i].(valid := false);
          return;
        }
        i := i + 1;
      }
    }
  }
}
