/** The serial execution is itself a run of the server: one connection after another, each
    with one session or one command. */
module SerialRun {
  import opened Text
  import opened Sentences
  import opened Editing
  import opened Editor
  import opened Documents
  import opened LockList
  import opened StorageServer
  import opened Traces
  import opened Serializability

  ghost function After(st: State, events: seq<Event>): State {
    if events == [] then st else Step(After(st, events[..|events| - 1]), events[|events| - 1])
  }

  lemma {:induction false} AfterConcat(st: State, a: seq<Event>, b: seq<Event>)
    ensures After(st, a + b) == After(After(st, a), b)
  {
    if b == [] {
      assert a + b == a;
    } else {
      assert (a + b)[..|a + b| - 1] == a + b[..|b| - 1];
      AfterConcat(st, a, b[..|b| - 1]);
    }
  }

  lemma AfterOne(st: State, e: Event)
    ensures After(st, [e]) == Step(st, e)
  {
    assert [e][..0] == [];
  }

  lemma {:induction false} RunIsAfter(docs: map<string, Doc>, events: seq<Event>)
    ensures Run(docs, events).st == After(Start(docs), events)
  {
    hide Step;
    if events != [] {
      RunIsAfter(docs, events[..|events| - 1]);
    }
  }

  function Types(fd: int, lines: seq<Line>): seq<Event> {
    if lines == [] then [] else Types(fd, lines[..|lines| - 1]) + [Type(fd, lines[|lines| - 1])]
  }

  /** A connection of its own that carries out one action and leaves. */
  function Alone(fd: int, a: Action): seq<Event> {
    match a
    case Session(file, sentence, lines, time, user) =>
      [Connect(fd, user), Write(fd, file, sentence)] + Types(fd, lines) + [Etirw(fd, time), Disconnect(fd)]
    case UndoOf(file) => [Connect(fd, ""), UndoFile(fd, file), Disconnect(fd)]
    case CheckpointOf(file, tag) => [Connect(fd, ""), CheckpointFile(fd, file, tag), Disconnect(fd)]
    case RevertOf(file, tag, time, user) => [Connect(fd, user), RevertFile(fd, file, tag, time), Disconnect(fd)]
  }

  /** The actions of a log one after another, the k-th on connection k. */
  function OneByOne(log: seq<Action>): seq<Event> {
    if log == [] then [] else OneByOne(log[..|log| - 1]) + Alone(|log| - 1, log[|log| - 1])
  }

  /** Nobody is connected, nothing is locked or drafted, and ids from `next` on are fresh. */
  ghost predicate Idle(st: State, next: int) {
    st.locks == [] && st.drafts == map[] && st.users == map[] && forall fd :: fd in st.seen ==> fd < next
  }

  /** The only client of the server, in write mode. */
  ghost predicate Writing(st: State, docs: map<string, Doc>, lock: Lock, draft: Option<string>, user: string, fd: int) {
    st.docs == docs && st.locks == [lock] && st.users == map[fd := user] && lock.fd == fd &&
    st.drafts == (if draft.Some? then map[lock := draft.value] else map[]) &&
    lock.file in docs && 1 <= lock.sentence && forall k :: k in st.seen ==> k <= fd
  }

  lemma {:induction false} TypesDraft(st: State, docs: map<string, Doc>, lock: Lock, user: string, lines: seq<Line>)
    requires Writing(st, docs, lock, None, user, lock.fd)
    ensures Writing(After(st, Types(lock.fd, lines)), docs, lock, Typed(docs[lock.file].content, lock.sentence, lines), user, lock.fd)
  {
    hide Apply;
    if lines != [] {
      var init, line := lines[..|lines| - 1], lines[|lines| - 1];
      TypesDraft(st, docs, lock, user, init);
      AfterConcat(st, Types(lock.fd, init), [Type(lock.fd, line)]);
      AfterOne(After(st, Types(lock.fd, init)), Type(lock.fd, line));
      ApplyKeepsDraft(docs[lock.file].content, lock.sentence, Typed(docs[lock.file].content, lock.sentence, init), line);
      assert LockOf([lock], lock.fd) == Some(lock);
    }
  }

  lemma SessionRunsAlone(st: State, fd: int, a: Action)
    requires Idle(st, fd) && a.Session? && a.file in st.docs && !Blank(st.docs[a.file].content)
    requires Admissible(st.docs[a.file].content, a.sentence)
    requires Typed(st.docs[a.file].content, a.sentence, a.lines).Some?
    ensures Idle(After(st, Alone(fd, a)), fd + 1) && After(st, Alone(fd, a)).docs == Perform(st.docs, a)
  {
    hide Typed, Merge, Rewrite, Available;
    var live, lock := st.docs[a.file].content, Lock(a.file, a.sentence, fd);
    AdmissionExact(live);
    var s1 := Step(st, Connect(fd, a.user));
    var s2 := Step(s1, Write(fd, a.file, a.sentence));
    assert Writing(s2, st.docs, lock, None, a.user, fd);
    var s3 := After(s2, Types(fd, a.lines));
    TypesDraft(s2, st.docs, lock, a.user, a.lines);
    assert LockOf([lock], fd) == Some(lock) && RemoveFirst([lock], lock) == [];
    var s4 := Step(s3, Etirw(fd, a.time));
    var s5 := Step(s4, Disconnect(fd));
    assert Idle(s5, fd + 1);
    assert s5.docs == Perform(st.docs, a);
    FiveSteps(st, Connect(fd, a.user), Write(fd, a.file, a.sentence), Types(fd, a.lines), Etirw(fd, a.time), Disconnect(fd));
  }

  lemma FiveSteps(st: State, a: Event, b: Event, mid: seq<Event>, c: Event, d: Event)
    ensures After(st, [a, b] + mid + [c, d]) == Step(Step(After(Step(Step(st, a), b), mid), c), d)
  {
    hide Step;
    AfterConcat(st, [a, b] + mid, [c, d]);
    AfterConcat(st, [a, b], mid);
    TwoSteps(st, a, b);
    TwoSteps(After(st, [a, b] + mid), c, d);
  }

  lemma TwoSteps(st: State, a: Event, b: Event)
    ensures After(st, [a, b]) == Step(Step(st, a), b)
  {
    hide Step;
    assert [a, b][..1] == [a];
    AfterOne(st, a);
  }

  lemma ThreeSteps(st: State, a: Event, b: Event, c: Event)
    ensures After(st, [a, b, c]) == Step(Step(Step(st, a), b), c)
  {
    hide Step;
    assert [a, b, c][..2] == [a, b];
    TwoSteps(st, a, b);
  }

  lemma CommandRunsAlone(st: State, fd: int, a: Action)
    requires Idle(st, fd) && !a.Session? && a.file in st.docs
    ensures Idle(After(st, Alone(fd, a)), fd + 1) && After(st, Alone(fd, a)).docs == Perform(st.docs, a)
  {
    hide Undo, Checkpoint, Revert;
    var user := if a.RevertOf? then a.user else "";
    var e := match a
      case UndoOf(file) => UndoFile(fd, file)
      case CheckpointOf(file, tag) => CheckpointFile(fd, file, tag)
      case RevertOf(file, tag, time, _) => RevertFile(fd, file, tag, time)
      case _ => Disconnect(fd);
    ThreeSteps(st, Connect(fd, user), e, Disconnect(fd));
    assert Quiet(Step(st, Connect(fd, user)), fd, a.file);
  }

  lemma {:induction false} OneByOneIsSerial(docs: map<string, Doc>, log: seq<Action>)
    requires Admitted(docs, log)
    ensures var st := After(Start(docs), OneByOne(log)); Idle(st, |log|) && st.docs == Serial(docs, log)
  {
    hide Perform, Alone, Blank, Step;
    if log != [] {
      var before, a := log[..|log| - 1], log[|log| - 1];
      OneByOneIsSerial(docs, before);
      var st := After(Start(docs), OneByOne(before));
      AfterConcat(Start(docs), OneByOne(before), Alone(|log| - 1, a));
      if a.Session? {
        SessionRunsAlone(st, |log| - 1, a);
      } else {
        CommandRunsAlone(st, |log| - 1, a);
      }
    }
  }

  /** For every run there is a serial run of the same server, with the committed sessions
      and the commands in the same order and nothing interleaved, that ends with the same
      documents. */
  lemma SerialRunExists(docs: map<string, Doc>, events: seq<Event>)
    requires NeverBlank(docs, events)
    ensures Run(docs, OneByOne(Run(docs, events).log)).st.docs == Run(docs, events).st.docs
  {
    hide Step, Follow;
    var log := Run(docs, events).log;
    RunKeeps(docs, events);
    OneByOneIsSerial(docs, log);
    RunIsAfter(docs, OneByOne(log));
  }
}
