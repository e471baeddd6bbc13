/** The storage server registry: reusable slots, and the round-robin choice of a slot for a
    new file. */
module Registry {
  import opened Text

  const MAX_SERVERS: nat := 10

  datatype Slot = Slot(active: bool, fd: int, ip: string, port: int)

  // ---- Slots as a list ------------------------------------------------------------------------

  function FirstFree(slots: seq<Slot>): (i: nat)
    ensures i <= |slots|
    ensures i < |slots| ==> !slots[i].active
    ensures forall k | 0 <= k < i :: slots[k].active
  {
    if slots == [] || !slots[0].active then 0 else 1 + FirstFree(slots[1..])
  }

  /** First active slot with a socket, or the number of slots. */
  function SlotOfSocket(slots: seq<Slot>, fd: int): (i: nat)
    ensures i <= |slots|
    ensures i < |slots| ==> slots[i].active && slots[i].fd == fd
    ensures forall k | 0 <= k < i :: !(slots[k].active && slots[k].fd == fd)
  {
    if slots == [] || (slots[0].active && slots[0].fd == fd) then 0 else 1 + SlotOfSocket(slots[1..], fd)
  }

  /** A removed server's slot can be taken again; the socket is forgotten. */
  function Released(slot: Slot): Slot {
    slot.(active := false, fd := -1)
  }

  // ---- Round robin ----------------------------------------------------------------------------

  /** A position that has gone past the last slot at most once, as a slot index: the
      remainder by the number of slots. */
  function Wrapped(position: nat, n: nat): (i: nat)
    requires position < 2 * n
    ensures i < n
  {
    if position < n then position else position - n
  }

  /** Whether the slot at a position is active. */
  predicate At(slots: seq<Slot>, position: nat)
    requires position < 2 * |slots|
  {
    slots[Wrapped(position, |slots|)].active
  }

  /** The first active position from `p` on, or `end`. */
  function Scan(slots: seq<Slot>, p: nat, end: nat): (q: nat)
    requires p <= end < 2 * |slots|
    ensures p <= q <= end && (q < end ==> At(slots, q))
    ensures forall k | p <= k < q :: !At(slots, k)
    decreases end - p
  {
    if p == end || At(slots, p) then p else Scan(slots, p + 1, end)
  }

  /** The slot the next new file goes to, looking once round from the pointer. */
  function Next(slots: seq<Slot>, start: nat): (r: Option<nat>)
    requires start < |slots|
    ensures r.Some? ==> r.value < |slots| && slots[r.value].active
  {
    var q := Scan(slots, start, start + |slots|);
    if q == start + |slots| then None else Some(Wrapped(q, |slots|))
  }

  /** The slots of `k` consecutive choices; each one moves the pointer behind its slot. */
  function Choices(slots: seq<Slot>, start: nat, k: nat): (r: seq<nat>)
    requires start < |slots|
    ensures |r| <= k
    decreases k
  {
    if k == 0 || Next(slots, start).None? then []
    else
      var i := Next(slots, start).value;
      [i] + Choices(slots, Wrapped(i + 1, |slots|), k - 1)
  }

  /** Number of active positions from `p` up to `end`. */
  function Active(slots: seq<Slot>, p: nat, end: nat): (n: nat)
    requires p <= end < 2 * |slots|
    decreases end - p
  {
    if p == end then 0 else Active(slots, p + 1, end) + if At(slots, p) then 1 else 0
  }

  lemma {:induction false} ActiveAfterScan(slots: seq<Slot>, p: nat, end: nat)
    requires p <= end < 2 * |slots|
    ensures var q := Scan(slots, p, end);
      Active(slots, p, end) == if q == end then 0 else 1 + Active(slots, q + 1, end)
    decreases end - p
  {
    if p < end && !At(slots, p) {
      ActiveAfterScan(slots, p + 1, end);
    }
  }

  /** Scanning once round from the wrapped pointer finds the first active position of the
      rest of the window. */
  lemma ScanFromPointer(slots: seq<Slot>, p: nat, q: nat)
    requires p <= q < p + |slots| && q < 2 * |slots|
    requires At(slots, q) && forall k | p <= k < q :: !At(slots, k)
    ensures Next(slots, Wrapped(p, |slots|)) == Some(Wrapped(q, |slots|))
  {
    var n := |slots|;
    var start := Wrapped(p, n);
    var r := Scan(slots, start, start + n);
    var found := q - (p - start);
    assert At(slots, found);
    forall k: nat | start <= k < found
      ensures !At(slots, k)
    {
      assert !At(slots, k + (p - start));
    }
  }

  /** Slot `i` is the slot of an active position from `p` up to `end`. */
  ghost predicate ActiveSlot(slots: seq<Slot>, p: nat, end: nat, i: nat)
    requires p <= end < 2 * |slots|
  {
    exists q :: p <= q < end && At(slots, q) && i == Wrapped(q, |slots|)
  }

  /** From any point of the window, as many choices as it has active positions left take
      exactly their slots, each one once. */
  lemma {:induction false} WindowFair(slots: seq<Slot>, start: nat, p: nat)
    requires start < |slots| && start <= p <= start + |slots|
    ensures var end := start + |slots|; var r := Choices(slots, Wrapped(p, |slots|), Active(slots, p, end));
      |r| == Active(slots, p, end) && Distinct(r) && forall i: nat :: i in r <==> ActiveSlot(slots, p, end, i)
    decreases start + |slots| - p
  {
    hide At, Distinct, ActiveSlot, Active, Choices, Next;
    var n, end := |slots|, start + |slots|;
    var k, q := Active(slots, p, end), Scan(slots, p, end);
    ActiveAfterScan(slots, p, end);
    if q == end {
      NoChoice(slots, Wrapped(p, n));
      forall j: nat ensures !ActiveSlot(slots, p, end, j) {
        NothingLeft(slots, p, end, j);
      }
    } else {
      var i, rest := Wrapped(q, n), Choices(slots, Wrapped(q + 1, n), k - 1);
      ScanFromPointer(slots, p, q);
      ChoiceStep(slots, Wrapped(p, n), q, k);
      WindowFair(slots, start, q + 1);
      LaterSlots(slots, q, end);
      DistinctCons(i, rest);
      forall j: nat
        ensures j in [i] + rest <==> ActiveSlot(slots, p, end, j)
      {
        WindowStep(slots, p, q, end, j);
        assert j in [i] + rest <==> j == i || j in rest;
      }
    }
  }

  lemma NoChoice(slots: seq<Slot>, start: nat)
    requires start < |slots|
    ensures Choices(slots, start, 0) == [] && Distinct(Choices(slots, start, 0))
  {
  }

  lemma ChoiceStep(slots: seq<Slot>, start: nat, q: nat, k: nat)
    requires start < |slots| && q + 1 < 2 * |slots| && k > 0 && Next(slots, start) == Some(Wrapped(q, |slots|))
    ensures Choices(slots, start, k) == [Wrapped(q, |slots|)] + Choices(slots, Wrapped(q + 1, |slots|), k - 1)
  {
  }

  lemma DistinctCons(i: nat, s: seq<nat>)
    requires Distinct(s) && i !in s
    ensures Distinct([i] + s)
  {
  }

  lemma NothingLeft(slots: seq<Slot>, p: nat, end: nat, j: nat)
    requires p <= end < 2 * |slots| && Scan(slots, p, end) == end
    ensures !ActiveSlot(slots, p, end, j)
  {
  }

  /** Within one round a slot does not come back. */
  lemma LaterSlots(slots: seq<Slot>, q: nat, end: nat)
    requires q < end < 2 * |slots| && end <= q + |slots|
    ensures !ActiveSlot(slots, q + 1, end, Wrapped(q, |slots|))
  {
  }

  lemma WindowStep(slots: seq<Slot>, p: nat, q: nat, end: nat, j: nat)
    requires p <= q < end < 2 * |slots| && At(slots, q) && forall k | p <= k < q :: !At(slots, k)
    ensures ActiveSlot(slots, p, end, j) <==> j == Wrapped(q, |slots|) || ActiveSlot(slots, q + 1, end, j)
  {
    if ActiveSlot(slots, p, end, j) {
      var q' :| p <= q' < end && At(slots, q') && j == Wrapped(q', |slots|);
      assert q' >= q;
    }
  }

  lemma {:induction false} ActiveSplit(slots: seq<Slot>, p: nat, mid: nat, end: nat)
    requires p <= mid <= end < 2 * |slots|
    ensures Active(slots, p, end) == Active(slots, p, mid) + Active(slots, mid, end)
    decreases mid - p
  {
    if p < mid {
      ActiveSplit(slots, p + 1, mid, end);
    }
  }

  lemma {:induction false} ActiveRound(slots: seq<Slot>, p: nat, end: nat)
    requires p <= end < |slots|
    ensures Active(slots, p + |slots|, end + |slots|) == Active(slots, p, end)
    decreases end - p
  {
    if p < end {
      ActiveRound(slots, p + 1, end);
    }
  }

  /** Round-robin fairness: whatever the pointer, while the k active slots stay the same,
      k consecutive choices take each active slot exactly once. */
  lemma RoundRobinFair(slots: seq<Slot>, start: nat)
    requires start < |slots|
    ensures var k := Active(slots, 0, |slots|); var r := Choices(slots, start, k);
      |r| == k && Distinct(r) && forall i: nat | i < |slots| :: i in r <==> slots[i].active
  {
    var n := |slots|;
    ActiveSplit(slots, start, n, start + n);
    ActiveRound(slots, 0, start);
    ActiveSplit(slots, 0, start, n);
    WindowFair(slots, start, start);
    var r := Choices(slots, start, Active(slots, 0, n));
    forall i: nat | i < n
      ensures i in r <==> slots[i].active
    {
      var q := if i < start then i + n else i;
      assert At(slots, q) <==> slots[i].active;
      if slots[i].active {
        assert ActiveSlot(slots, start, start + n, i);
      }
    }
  }

  // ---- The registry in place ------------------------------------------------------------------

  class SlotTable {
    const slots: array<Slot>
    var next: nat

    ghost predicate Valid()
      reads this
    {
      slots.Length == MAX_SERVERS && next < MAX_SERVERS
    }

    constructor ()
      ensures Valid() && fresh(slots) && next == 0
      ensures forall k | 0 <= k < MAX_SERVERS :: slots[k] == Slot(false, -1, "", 0)
    {
      slots := new Slot[MAX_SERVERS](_ => Slot(false, -1, "", 0));
      next := 0;
    }

    /** Take the first inactive slot, whoever had it before. */
    method Register(fd: int, ip: string, port: int) returns (found: int)
      requires Valid()
      modifies slots
      ensures var was := old(slots[..]); var i := FirstFree(was);
        if i < |was| then found == i && slots[..] == was[i := Slot(true, fd, ip, port)]
        else found == -1 && slots[..] == was
    {
      ghost var was := slots[..];
      var i := 0;
      while i < MAX_SERVERS && slots[i].active
        invariant i <= MAX_SERVERS
        invariant forall k | 0 <= k < i :: was[k].active
      {
        i := i + 1;
      }
      if i == MAX_SERVERS {
        return -1;
      }
      slots[i] := Slot(true, fd, ip, port);
      return i;
    }

    /** The slot for a new file; the pointer moves behind it. */
    method NextForNewFile() returns (found: int)
      requires Valid()
      modifies `next
      ensures Valid()
      ensures var r := Next(slots[..], old(next));
        if r.Some? then found == r.value && next == (r.value + 1) % MAX_SERVERS
        else found == -1 && next == old(next)
    {
      ghost var s := slots[..];
      ghost var q := Scan(s, next, next + MAX_SERVERS);
      var i := 0;
      while i < MAX_SERVERS
        invariant i <= MAX_SERVERS && next == old(next)
        invariant forall k | next <= k < next + i :: !At(s, k)
      {
        var index := (next + i) % MAX_SERVERS;
        assert index == Wrapped(next + i, MAX_SERVERS);
        assert slots[index].active <==> At(s, next + i);
        if slots[index].active {
          assert q == next + i;
          next := (index + 1) % MAX_SERVERS;
          return index;
        }
        i := i + 1;
      }
      return -1;
    }

    /** Deactivate the server with this socket; its files are purged by the caller. */
    method Remove(fd: int) returns (found: int)
      requires Valid()
      modifies slots
      ensures var was := old(slots[..]); var i := SlotOfSocket(was, fd);
        if i < |was| then found == i && slots[..] == was[i := Released(was[i])]
        else found == -1 && slots[..] == was
    {
      ghost var was := slots[..];
      var i := 0;
      while i < MAX_SERVERS && !(slots[i].active && slots[i].fd == fd)
        invariant i <= MAX_SERVERS
        invariant forall k | 0 <= k < i :: !(was[k].active && was[k].fd == fd)
      {
        i := i + 1;
      }
      if i == MAX_SERVERS {
        return -1;
      }
      slots[i] := slots[i].(active := false, fd := -1);
      return i;
    }
  }
}
