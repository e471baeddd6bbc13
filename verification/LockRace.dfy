/** WRITE takes the lock mutex twice: once to test that nobody else holds the sentence, once
    to insert its lock. What still holds when other clients run in between. */
module LockRace {
  import opened Text
  import opened LockList

  /** A client idles, or has tested a sentence and is about to insert its lock. Clients in
      write mode are those with a lock. */
  datatype State = State(locks: seq<Lock>, tested: map<int, Lock>)

  datatype Event =
    | Test(fd: int, file: string, sentence: int)
    | Insert(fd: int)
    | Commit(fd: int)
    | Disconnect(fd: int)

  /** One critical section of the lock mutex each. */
  ghost function Step(st: State, e: Event): State {
    match e
    case Test(fd, file, sentence) =>
      if fd in st.tested || LockOf(st.locks, fd).Some? || HeldByOther(st.locks, file, sentence, fd) then st
      else st.(tested := st.tested[fd := Lock(file, sentence, fd)])
    case Insert(fd) =>
      if fd in st.tested then State([st.tested[fd]] + st.locks, st.tested - {fd}) else st
    case Commit(fd) =>
      var lock := LockOf(st.locks, fd);
      if lock.Some? then st.(locks := RemoveFirst(st.locks, lock.value)) else st
    case Disconnect(fd) => State(WithoutClient(st.locks, fd), st.tested - {fd})
  }

  ghost function Run(es: seq<Event>): State {
    if es == [] then State([], map[]) else Step(Run(es[..|es| - 1]), es[|es| - 1])
  }

  ghost predicate Apart(locks: seq<Lock>) {
    forall i, j | 0 <= i < j < |locks| :: locks[i].fd != locks[j].fd
  }

  /** Each client has at most one lock, and none while it is about to insert one. */
  ghost predicate OneEach(st: State) {
    Apart(st.locks) &&
    forall fd :: fd in st.tested ==> st.tested[fd].fd == fd && forall l :: l in st.locks ==> l.fd != fd
  }

  lemma ApartCons(locks: seq<Lock>, rest: seq<Lock>)
    requires locks != [] && Apart(locks) && Apart(rest) && forall l :: l in rest ==> l in locks[1..]
    ensures Apart(locks[1..]) && Apart([locks[0]] + rest)
  {
    var r := [locks[0]] + rest;
    forall j | 0 < j < |r|
      ensures r[j].fd != locks[0].fd
    {
      assert rest[j - 1] in locks[1..];
    }
  }

  lemma {:induction false} WithoutClientApart(locks: seq<Lock>, fd: int)
    requires Apart(locks)
    ensures var r := WithoutClient(locks, fd);
      Apart(r) && forall l :: l in r ==> l in locks && l.fd != fd
  {
    if locks != [] {
      WithoutClientApart(locks[1..], fd);
      ApartCons(locks, WithoutClient(locks[1..], fd));
    }
  }

  lemma {:induction false} RemoveFirstApart(locks: seq<Lock>, lock: Lock)
    requires Apart(locks)
    ensures var r := RemoveFirst(locks, lock);
      Apart(r) && forall l :: l in r ==> l in locks
  {
    if locks != [] {
      RemoveFirstApart(locks[1..], lock);
      ApartCons(locks, RemoveFirst(locks[1..], lock));
    }
  }

  lemma StepKeepsOneEach(st: State, e: Event)
    requires OneEach(st)
    ensures OneEach(Step(st, e))
  {
    match e
    case Test(fd, file, sentence) =>
    case Insert(fd) =>
    case Commit(fd) =>
      var lock := LockOf(st.locks, fd);
      if lock.Some? {
        RemoveFirstApart(st.locks, lock.value);
      }
    case Disconnect(fd) =>
      WithoutClientApart(st.locks, fd);
  }

  /** In every interleaving of the critical sections a client holds at most one lock,
      because a client in write mode is not asked for another. */
  lemma {:induction false} AtMostOneLockEach(es: seq<Event>)
    ensures OneEach(Run(es))
  {
    if es != [] {
      AtMostOneLockEach(es[..|es| - 1]);
      StepKeepsOneEach(Run(es[..|es| - 1]), es[|es| - 1]);
    }
  }

  /** An insert of a sentence that another client has come to hold since the test. */
  ghost predicate LateInsert(st: State, e: Event) {
    e.Insert? && e.fd in st.tested && HeldByOther(st.locks, st.tested[e.fd].file, st.tested[e.fd].sentence, e.fd)
  }

  /** Exclusion is lost in exactly one kind of step. */
  lemma ExclusionBreaksExactly(st: State, e: Event)
    requires OneEach(st) && Exclusive(st.locks)
    ensures !Exclusive(Step(st, e).locks) <==> LateInsert(st, e)
  {
    hide Exclusive;
    match e
    case Test(fd, file, sentence) =>
    case Insert(fd) =>
      if LateInsert(st, e) {
        BothLocked(st.locks, st.tested[fd]);
      } else if fd in st.tested {
        ExclusivePush(st.locks, st.tested[fd]);
      }
    case Commit(fd) =>
      var lock := LockOf(st.locks, fd);
      if lock.Some? {
        RemovedMembers(st.locks, lock.value);
      }
    case Disconnect(fd) => WithoutClientExclusive(st.locks, fd);
  }

  lemma BothLocked(locks: seq<Lock>, lock: Lock)
    requires HeldByOther(locks, lock.file, lock.sentence, lock.fd)
    ensures !Exclusive([lock] + locks)
  {
    var l :| l in locks && l.file == lock.file && l.sentence == lock.sentence;
    var k :| 0 <= k < |locks| && locks[k] == l;
    assert ([lock] + locks)[0] == lock && ([lock] + locks)[k + 1] == l;
  }

  ghost predicate AlwaysExclusive(es: seq<Event>) {
    forall k | 0 <= k <= |es| :: Exclusive(Run(es[..k]).locks)
  }

  ghost predicate NeverLate(es: seq<Event>) {
    forall k | 0 <= k < |es| :: !LateInsert(Run(es[..k]), es[k])
  }

  lemma Prefix(es: seq<Event>)
    requires es != []
    ensures var n, before := |es| - 1, es[..|es| - 1];
      (AlwaysExclusive(es) <==> AlwaysExclusive(before) && Exclusive(Run(es).locks)) &&
      (NeverLate(es) <==> NeverLate(before) && !LateInsert(Run(before), es[n]))
  {
    hide Run, Exclusive, LateInsert;
    var n, before := |es| - 1, es[..|es| - 1];
    assert forall k | 0 <= k <= n :: before[..k] == es[..k];
    assert es[..n + 1] == es && before[..n] == before;
  }

  /** A run is exclusive throughout exactly if it has no such step. */
  lemma {:induction false} ExclusiveExactly(es: seq<Event>)
    ensures AlwaysExclusive(es) <==> NeverLate(es)
  {
    hide Step, Exclusive, LateInsert;
    if es == [] {
      NothingLocked();
      assert es[..0] == [];
    } else {
      var before := es[..|es| - 1];
      hide AlwaysExclusive, NeverLate;
      ExclusiveExactly(before);
      Prefix(es);
      AtMostOneLockEach(before);
      if AlwaysExclusive(before) {
        LastExclusive(before);
        ExclusionBreaksExactly(Run(before), es[|es| - 1]);
      }
    }
  }

  lemma LastExclusive(es: seq<Event>)
    requires AlwaysExclusive(es)
    ensures Exclusive(Run(es).locks)
  {
    hide Run, Exclusive;
    assert es[..|es|] == es;
  }

  lemma NothingLocked()
    ensures Exclusive(Run([]).locks)
  {
  }

  /** Such runs exist from every state: whenever two idle clients ask for
      a free sentence and both test before either inserts, both hold it. */
  lemma BothHold(st: State, file: string, sentence: int, fd: int, other: int)
    requires OneEach(st) && fd != other && fd !in st.tested && other !in st.tested
    requires LockOf(st.locks, fd).None? && LockOf(st.locks, other).None?
    requires forall l :: l in st.locks ==> !(l.file == file && l.sentence == sentence)
    ensures var st' := Step(Step(Step(Step(st, Test(fd, file, sentence)), Test(other, file, sentence)),
        Insert(fd)), Insert(other));
      Lock(file, sentence, fd) in st'.locks && Lock(file, sentence, other) in st'.locks
  {
    var st1 := Step(st, Test(fd, file, sentence));
    assert st1.tested == st.tested[fd := Lock(file, sentence, fd)] && st1.locks == st.locks;
    var st2 := Step(st1, Test(other, file, sentence));
    assert st2.tested == st1.tested[other := Lock(file, sentence, other)] && st2.locks == st.locks;
    var st3 := Step(st2, Insert(fd));
    assert st3.locks == [Lock(file, sentence, fd)] + st.locks;
    var st4 := Step(st3, Insert(other));
    assert st4.locks == [Lock(file, sentence, other)] + st3.locks;
    assert st4.locks[0] == Lock(file, sentence, other) && st4.locks[1] == Lock(file, sentence, fd);
  }
}
