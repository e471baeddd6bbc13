/** The global list of sentence locks: singly linked heap nodes, newest first. */
module LockList {
  import opened Text

  datatype Lock = Lock(file: string, sentence: int, fd: int)

  // ---- The list operations on values ----------------------------------------------------------

  /** Another client holds the sentence. */
  ghost predicate HeldByOther(locks: seq<Lock>, file: string, sentence: int, fd: int) {
    exists l :: l in locks && l.file == file && l.sentence == sentence && l.fd != fd
  }

  ghost predicate FileHeld(locks: seq<Lock>, file: string) {
    exists l :: l in locks && l.file == file
  }

  /** The newest lock of a client. */
  function LockOf(locks: seq<Lock>, fd: int): (r: Option<Lock>)
    ensures r.Some? ==> r.value in locks && r.value.fd == fd
    ensures r.None? ==> forall l :: l in locks ==> l.fd != fd
  {
    if locks == [] then None
    else if locks[0].fd == fd then Some(locks[0])
    else LockOf(locks[1..], fd)
  }

  function RemoveFirst(locks: seq<Lock>, lock: Lock): seq<Lock> {
    if locks == [] then []
    else if locks[0] == lock then locks[1..]
    else [locks[0]] + RemoveFirst(locks[1..], lock)
  }

  function WithoutClient(locks: seq<Lock>, fd: int): seq<Lock> {
    if locks == [] then []
    else (if locks[0].fd == fd then [] else [locks[0]]) + WithoutClient(locks[1..], fd)
  }

  lemma {:induction false} RemoveFirstAt(locks: seq<Lock>, lock: Lock, i: nat)
    requires i < |locks| && locks[i] == lock && forall k | 0 <= k < i :: locks[k] != lock
    ensures RemoveFirst(locks, lock) == DropAt(locks, i)
  {
    if i > 0 {
      RemoveFirstAt(locks[1..], lock, i - 1);
    }
  }

  lemma {:induction false} RemoveFirstAbsent(locks: seq<Lock>, lock: Lock)
    requires lock !in locks
    ensures RemoveFirst(locks, lock) == locks
  {
    if locks != [] {
      RemoveFirstAbsent(locks[1..], lock);
    }
  }

  lemma {:induction false} WithoutClientSnoc(locks: seq<Lock>, l: Lock, fd: int)
    ensures WithoutClient(locks + [l], fd) == WithoutClient(locks, fd) + if l.fd == fd then [] else [l]
  {
    if locks != [] {
      assert (locks + [l])[1..] == locks[1..] + [l];
      WithoutClientSnoc(locks[1..], l, fd);
    }
  }

  /** Disconnecting removes exactly the client's locks. */
  lemma {:induction false} WithoutClientMembers(locks: seq<Lock>, fd: int, l: Lock)
    ensures l in WithoutClient(locks, fd) <==> l in locks && l.fd != fd
  {
    if locks != [] {
      WithoutClientMembers(locks[1..], fd, l);
      assert l in locks <==> l == locks[0] || l in locks[1..];
    }
  }

  // ---- Exclusive lists ------------------------------------------------------------------------

  /** No sentence is locked twice and no client holds two locks. */
  ghost predicate Exclusive(locks: seq<Lock>) {
    forall i, j | 0 <= i < j < |locks| ::
      locks[i].fd != locks[j].fd && !(locks[i].file == locks[j].file && locks[i].sentence == locks[j].sentence)
  }

  lemma {:induction false} RemovedMembers(locks: seq<Lock>, lock: Lock)
    requires Exclusive(locks)
    ensures Exclusive(RemoveFirst(locks, lock))
    ensures forall l :: l in RemoveFirst(locks, lock) <==> l in locks && l != lock
  {
    if locks != [] {
      var rest := locks[1..];
      RemovedMembers(rest, lock);
      assert forall l :: l in locks <==> l == locks[0] || l in rest;
      assert forall k | 0 <= k < |rest| :: rest[k] == locks[k + 1];
      assert locks[0] !in rest;
      if locks[0] != lock {
        ExclusiveCons(locks[0], RemoveFirst(rest, lock), locks);
      }
    }
  }

  lemma ExclusiveCons(l: Lock, kept: seq<Lock>, locks: seq<Lock>)
    requires locks != [] && l == locks[0] && Exclusive(locks) && Exclusive(kept)
    requires forall k :: k in kept ==> k in locks[1..]
    ensures Exclusive([l] + kept)
  {
    var all := [l] + kept;
    forall i, j | 0 <= i < j < |all|
      ensures all[i].fd != all[j].fd && !(all[i].file == all[j].file && all[i].sentence == all[j].sentence)
    {
      if i == 0 {
        assert all[j] in locks[1..];
        var m :| 0 <= m < |locks[1..]| && locks[1..][m] == all[j];
        assert locks[m + 1] == all[j];
      } else {
        assert all[i] == kept[i - 1] && all[j] == kept[j - 1];
      }
    }
  }

  lemma {:induction false} WithoutClientExclusive(locks: seq<Lock>, fd: int)
    requires Exclusive(locks)
    ensures Exclusive(WithoutClient(locks, fd))
    ensures forall l :: l in WithoutClient(locks, fd) <==> l in locks && l.fd != fd
  {
    forall l ensures l in WithoutClient(locks, fd) <==> l in locks && l.fd != fd {
      WithoutClientMembers(locks, fd, l);
    }
    if locks != [] {
      WithoutClientExclusive(locks[1..], fd);
      if locks[0].fd != fd {
        ExclusiveCons(locks[0], WithoutClient(locks[1..], fd), locks);
      }
    }
  }

  lemma ExclusivePush(locks: seq<Lock>, l: Lock)
    requires Exclusive(locks) && LockOf(locks, l.fd).None? && !HeldByOther(locks, l.file, l.sentence, l.fd)
    ensures Exclusive([l] + locks)
  {
    var all := [l] + locks;
    forall i, j | 0 <= i < j < |all|
      ensures all[i].fd != all[j].fd && !(all[i].file == all[j].file && all[i].sentence == all[j].sentence)
    {
      if i == 0 {
        assert all[j] == locks[j - 1] && all[j] in locks;
      } else {
        assert all[i] == locks[i - 1] && all[j] == locks[j - 1];
      }
    }
  }

  lemma DifferentSentences(locks: seq<Lock>, l: Lock, m: Lock)
    requires Exclusive(locks) && l in locks && m in locks && l != m
    ensures l.fd != m.fd && !(l.file == m.file && l.sentence == m.sentence)
  {
    var i :| 0 <= i < |locks| && locks[i] == l;
    var j :| 0 <= j < |locks| && locks[j] == m;
    if i < j {
      assert locks[i].fd != locks[j].fd;
    } else {
      assert locks[j].fd != locks[i].fd;
    }
  }

  // ---- The disconnect walk --------------------------------------------------------------------

  /** Where the disconnect walk stands: `k` old locks seen, the `i` kept ones in front. */
  ghost predicate Walked(was: seq<Lock>, k: nat, now: seq<Lock>, i: nat, fd: int)
    requires k <= |was| && i <= |now|
  {
    now[..i] == WithoutClient(was[..k], fd) && now[i..] == was[k..]
  }

  lemma WalkBegins(was: seq<Lock>, fd: int)
    ensures Walked(was, 0, was, 0, fd)
  {
  }

  lemma WalkEnds(was: seq<Lock>, now: seq<Lock>, fd: int)
    requires Walked(was, |was|, now, |now|, fd)
    ensures now == WithoutClient(was, fd)
  {
    assert was[..|was|] == was && now[..|now|] == now;
  }

  lemma WalkStep(was: seq<Lock>, k: nat, now: seq<Lock>, i: nat, fd: int)
    requires k <= |was| && i < |now| && Walked(was, k, now, i, fd)
    ensures k < |was| && was[k] == now[i]
    ensures if now[i].fd == fd then Walked(was, k + 1, DropAt(now, i), i, fd) else Walked(was, k + 1, now, i + 1, fd)
  {
    assert now[i] == now[i..][0] == was[k..][0];
    WithoutClientSnoc(was[..k], was[k], fd);
    assert was[..k + 1] == was[..k] + [was[k]];
    assert was[k + 1..] == was[k..][1..] == now[i..][1..] == now[i + 1..];
    assert now[..i + 1] == now[..i] + [now[i]];
  }

  function DropAt<T>(s: seq<T>, i: nat): (r: seq<T>)
    requires i < |s|
    ensures |r| == |s| - 1
  {
    s[..i] + s[i + 1..]
  }

  lemma Subset<T>(s: seq<T>, i: nat)
    requires i < |s|
    ensures forall x :: x in DropAt(s, i) ==> x in s
  {
  }

  ghost predicate Within<T>(s: seq<T>, t: seq<T>) {
    forall x :: x in s ==> x in t
  }

  lemma Member<T>(s: seq<T>, t: seq<T>, x: T)
    requires Within(s, t) && x in s
    ensures x in t
  {
  }

  lemma AllWithin<T>(s: seq<T>)
    ensures Within(s, s)
  {
  }

  lemma Fewer<T>(s: seq<T>, i: nat, t: seq<T>)
    requires i < |s| && Within(s, t)
    ensures Within(DropAt(s, i), t)
  {
    Subset(s, i);
  }

  lemma Pushed<T>(x: T, s: seq<T>)
    ensures ([x] + s)[1..] == s && forall i | 1 <= i < |s| + 1 :: ([x] + s)[i] == s[i - 1]
  {
  }

  lemma DistinctDrop<T>(s: seq<T>, i: nat)
    requires i < |s| && Distinct(s)
    ensures Distinct(DropAt(s, i))
  {
    var t := DropAt(s, i);
    forall k, m | 0 <= k < m < |t|
      ensures t[k] != t[m]
    {
      Dropped(s, i, k);
      Dropped(s, i, m);
    }
  }

  lemma Dropped<T>(s: seq<T>, i: nat, k: nat)
    requires i < |s| && k < |s| - 1
    ensures DropAt(s, i)[k] == s[if k < i then k else k + 1]
  {
  }

  lemma LockOfFirst(locks: seq<Lock>, fd: int, i: nat)
    requires i < |locks| && locks[i].fd == fd && forall k | 0 <= k < i :: locks[k].fd != fd
    ensures LockOf(locks, fd) == Some(locks[i])
  {
    if i > 0 {
      LockOfFirst(locks[1..], fd, i - 1);
    }
  }

  // ---- The heap list --------------------------------------------------------------------------

  class Node {
    const file: string
    const sentence: int
    const fd: int
    var next: Node?

    constructor (file: string, sentence: int, fd: int, next: Node?)
      ensures this.file == file && this.sentence == sentence && this.fd == fd && this.next == next
    {
      this.file, this.sentence, this.fd, this.next := file, sentence, fd, next;
    }

    function Held(): Lock {
      Lock(file, sentence, fd)
    }
  }

  ghost function NodeIn(nodes: seq<Node>, i: int): Node? {
    if 0 <= i < |nodes| then nodes[i] else null
  }

  lemma StillHeld(nodes: seq<Node>, locks: seq<Lock>, i: nat)
    requires |locks| == |nodes| && i < |nodes| && forall k | 0 <= k < |nodes| :: locks[k] == nodes[k].Held()
    ensures forall k | 0 <= k < |nodes| - 1 :: DropAt(locks, i)[k] == DropAt(nodes, i)[k].Held()
  {
    forall k | 0 <= k < |nodes| - 1
      ensures DropAt(locks, i)[k] == DropAt(nodes, i)[k].Held()
    {
      Dropped(nodes, i, k);
      Dropped(locks, i, k);
    }
  }

  lemma NextAfterDrop(nodes: seq<Node>, i: nat, k: nat)
    requires i < |nodes| && k < |nodes| - 1
    ensures k + 1 < i ==> NodeIn(DropAt(nodes, i), k + 1) == NodeIn(nodes, k + 1)
    ensures k + 1 >= i ==> NodeIn(DropAt(nodes, i), k + 1) == NodeIn(nodes, k + 2)
  {
    if k + 1 < |nodes| - 1 {
      Dropped(nodes, i, k + 1);
    }
  }

  lemma FirstAfterDrop(nodes: seq<Node>, i: nat)
    requires i < |nodes|
    ensures var r := DropAt(nodes, i);
      NodeIn(r, 0) == NodeIn(nodes, if 0 < i then 0 else 1) &&
      NodeIn(r, i - 1) == NodeIn(nodes, i - 1) && NodeIn(r, i) == NodeIn(nodes, i + 1)
  {
    if 1 < |nodes| {
      Dropped(nodes, i, 0);
    }
    if i < |nodes| - 1 {
      Dropped(nodes, i, i);
    }
    if 0 < i {
      Dropped(nodes, i, i - 1);
    }
  }

  class List {
    var head: Node?
    /** The nodes from `head` on, in order. */
    ghost var nodes: seq<Node>
    /** The locks they hold. */
    ghost var locks: seq<Lock>

    /** What a pointer to position `i` of the list is. */
    ghost function NodeAt(i: int): Node?
      reads this
    {
      NodeIn(nodes, i)
    }

    /** The nodes are linked in order, without a repetition, and hold the locks: the list
        is acyclic and ends. */
    ghost predicate Valid()
      reads this, nodes
    {
      |locks| == |nodes| &&
      head == NodeAt(0) &&
      (forall i | 0 <= i < |nodes| :: nodes[i].next == NodeAt(i + 1)) &&
      (forall i | 0 <= i < |nodes| :: locks[i] == nodes[i].Held()) &&
      Distinct(nodes)
    }

    constructor ()
      ensures Valid() && locks == [] && nodes == []
    {
      head, nodes, locks := null, [], [];
    }

    method IsSentenceLocked(file: string, sentence: int, fd: int) returns (held: bool)
      requires Valid()
      ensures held <==> exists l :: l in locks && l.file == file && l.sentence == sentence && l.fd != fd
    {
      var curr := head;
      ghost var i := 0;
      while curr != null
        invariant 0 <= i <= |nodes|
        invariant curr == NodeAt(i)
        invariant forall k | 0 <= k < i :: !(locks[k].file == file && locks[k].sentence == sentence && locks[k].fd != fd)
        decreases |nodes| - i
      {
        assert locks[i] == curr.Held();
        if curr.file == file && curr.sentence == sentence && curr.fd != fd {
          return true;
        }
        curr := curr.next;
        i := i + 1;
      }
      return false;
    }

    method IsFileLocked(file: string) returns (held: bool)
      requires Valid()
      ensures held <==> exists l :: l in locks && l.file == file
    {
      var curr := head;
      ghost var i := 0;
      while curr != null
        invariant 0 <= i <= |nodes|
        invariant curr == NodeAt(i)
        invariant forall k | 0 <= k < i :: locks[k].file != file
        decreases |nodes| - i
      {
        assert locks[i] == curr.Held();
        if curr.file == file {
          return true;
        }
        curr := curr.next;
        i := i + 1;
      }
      return false;
    }

    method WriteInfo(fd: int) returns (r: Option<Lock>)
      requires Valid()
      ensures r == LockOf(locks, fd)
    {
      var curr := head;
      ghost var i := 0;
      while curr != null
        invariant 0 <= i <= |nodes|
        invariant curr == NodeAt(i)
        invariant forall k | 0 <= k < i :: locks[k].fd != fd
        decreases |nodes| - i
      {
        assert locks[i] == curr.Held();
        if curr.fd == fd {
          LockOfFirst(locks, fd, i);
          return Some(curr.Held());
        }
        curr := curr.next;
        i := i + 1;
      }
      return None;
    }

    /** Push a node; the list grows by it and no older node changes. */
    method Add(file: string, sentence: int, fd: int)
      requires Valid()
      modifies this
      ensures Valid() && locks == [Lock(file, sentence, fd)] + old(locks)
      ensures |nodes| > 0 && fresh(nodes[0]) && nodes[1..] == old(nodes)
    {
      var node := new Node(file, sentence, fd, head);
      head := node;
      Pushed(node, nodes);
      Pushed(node.Held(), locks);
      nodes, locks := [node] + nodes, [node.Held()] + locks;
    }

    /** Unlink node `i`, whose predecessor is `prev`. */
    ghost predicate At(i: nat, prev: Node?, curr: Node?)
      reads this, nodes
    {
      i <= |nodes| &&
      prev == NodeAt(i - 1) && curr == NodeAt(i)
    }

    /** A pointer to node `i` and what it says. */
    lemma Here(i: nat, prev: Node?, curr: Node)
      requires Valid() && At(i, prev, curr)
      ensures i < |nodes| == |locks| && nodes[i] == curr && locks[i] == curr.Held()
      ensures At(i + 1, curr, curr.next) && (prev != null ==> prev in nodes)
    {
    }

    lemma Ends(i: nat, prev: Node?)
      requires Valid() && At(i, prev, null)
      ensures i == |nodes| == |locks|
    {
    }

    method Unlink(ghost i: nat, prev: Node?, curr: Node)
      requires Valid() && i < |nodes| && At(i, prev, curr)
      modifies this, prev
      ensures Valid() && At(i, prev, old(curr.next))
      ensures nodes == DropAt(old(nodes), i)
      ensures locks == DropAt(old(locks), i)
    {
      hide RemoveFirst, WithoutClient;
      ghost var was := nodes;
      assert forall k | 0 <= k < |nodes| && k != i - 1 :: nodes[k] != prev;
      assert forall k | 0 <= k < |nodes| :: nodes[k].next == NodeIn(nodes, k + 1);
      StillHeld(nodes, locks, i);
      DistinctDrop(nodes, i);
      FirstAfterDrop(nodes, i);
      hide Distinct;
      if prev != null {
        prev.next := curr.next;
      } else {
        head := curr.next;
      }
      nodes := DropAt(nodes, i);
      locks := DropAt(locks, i);
      forall k | 0 <= k < |nodes|
        ensures nodes[k].next == NodeAt(k + 1)
      {
        ghost var m := if k < i then k else k + 1;
        Dropped(was, i, k);
        NextAfterDrop(was, i, k);
        assert nodes[k] == was[m];
        if m == i - 1 {
          assert prev.next == NodeIn(was, i + 1);
        } else {
          assert was[m] != prev && old(was[m].next) == NodeIn(was, m + 1);
        }
      }
    }

    /** Commit: unlink the client's own node, the first that matches. */
    method Remove(file: string, sentence: int, fd: int)
      requires Valid()
      modifies this, nodes
      ensures Valid() && locks == RemoveFirst(old(locks), Lock(file, sentence, fd))
      ensures forall n :: n in nodes ==> n in old(nodes)
    {
      Starts();
      hide RemoveFirst, Valid, At, DropAt;
      var prev: Node?, curr := null, head;
      ghost var i := 0;
      while curr != null
        invariant Valid() && nodes == old(nodes) && locks == old(locks)
        invariant i <= |nodes| == |locks| && At(i, prev, curr)
        invariant forall k | 0 <= k < i :: locks[k] != Lock(file, sentence, fd)
        decreases |nodes| - i
      {
        Here(i, prev, curr);
        if curr.file == file && curr.sentence == sentence && curr.fd == fd {
          RemoveFirstAt(locks, Lock(file, sentence, fd), i);
          Subset(nodes, i);
          Unlink(i, prev, curr);
          return;
        }
        prev := curr;
        curr := curr.next;
        i := i + 1;
      }
      Ends(i, prev);
      RemoveFirstAbsent(locks, Lock(file, sentence, fd));
    }

    lemma Starts()
      requires Valid()
      ensures |locks| == |nodes| && At(0, null, head)
    {
    }

    /** Disconnect: unlink every node of the client, in one walk. */
    method RemoveClient(fd: int)
      requires Valid()
      modifies this, nodes
      ensures Valid() && locks == WithoutClient(old(locks), fd)
      ensures forall n :: n in nodes ==> n in old(nodes)
    {
      Starts();
      hide WithoutClient, Walked, Valid, At, Within, DropAt;
      var prev: Node?, curr := null, head;
      ghost var i, k := 0, 0;
      ghost var was := locks;
      WalkBegins(was, fd);
      AllWithin(nodes);
      while curr != null
        invariant Valid() && i <= |nodes| == |locks| && At(i, prev, curr)
        invariant 0 <= k <= |was| && k + |nodes| - i == |was|
        invariant Walked(was, k, locks, i, fd)
        invariant Within(nodes, old(nodes))
        decreases |nodes| - i
      {
        Here(i, prev, curr);
        WalkStep(was, k, locks, i, fd);
        if curr.fd == fd {
          var toRemove := curr;
          curr := curr.next;
          if prev != null {
            Member(nodes, old(nodes), prev);
          }
          Fewer(nodes, i, old(nodes));
          Unlink(i, prev, toRemove);
        } else {
          prev := curr;
          curr := curr.next;
          i := i + 1;
        }
        k := k + 1;
      }
      WalkEnds(was, locks, fd);
    }
  }
}
