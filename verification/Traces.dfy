/** Runs of the editing protocol with their history, the serial execution of what took
    effect, and the invariant that ties the two. */
module Traces {
  import opened Text
  import opened Sentences
  import opened Editing
  import opened Editor
  import opened UndoLog
  import opened Documents
  import opened LockList
  import opened StorageServer

  /** What took effect, in order: a committed session with all its lines, or a command. */
  datatype Action =
    | Session(file: string, sentence: int, lines: seq<Line>, time: int, user: string)
    | UndoOf(file: string)
    | CheckpointOf(file: string, tag: string)
    | RevertOf(file: string, tag: string, time: int, user: string)

  /** A run with its history: the lines typed since each client's last WRITE, and the log
      of what took effect. */
  datatype Trace = Trace(st: State, typed: map<int, seq<Line>>, log: seq<Action>)

  ghost function Follow(tr: Trace, e: Event): Trace {
    var st := tr.st;
    var st' := Step(st, e);
    match e
    case Write(fd, file, sentence) =>
      Trace(st', if WriteAdmitted(st, fd, file, sentence) then tr.typed[fd := []] else tr.typed, tr.log)
    case Type(fd, line) =>
      Trace(st', if fd in st.users && WriteMode(st, fd) && fd in tr.typed then tr.typed[fd := tr.typed[fd] + [line]]
                 else tr.typed, tr.log)
    case Etirw(fd, time) =>
      Trace(st', tr.typed, tr.log + Committed(tr, fd, time))
    case UndoFile(fd, file) =>
      Trace(st', tr.typed, if Quiet(st, fd, file) then tr.log + [UndoOf(file)] else tr.log)
    case CheckpointFile(fd, file, tag) =>
      Trace(st', tr.typed, if Quiet(st, fd, file) then tr.log + [CheckpointOf(file, tag)] else tr.log)
    case RevertFile(fd, file, tag, time) =>
      Trace(st', tr.typed, if Quiet(st, fd, file) then tr.log + [RevertOf(file, tag, time, st.users[fd])] else tr.log)
    case _ => Trace(st', tr.typed, tr.log)
  }

  /** The session an ETIRW commits, if the client holds a lock and has a draft. */
  function Committed(tr: Trace, fd: int, time: int): seq<Action> {
    if fd !in tr.st.users || !WriteMode(tr.st, fd) || fd !in tr.typed then []
    else
      var lock := LockOf(tr.st.locks, fd).value;
      if lock !in tr.st.drafts then []
      else [Session(lock.file, lock.sentence, tr.typed[fd], time, tr.st.users[fd])]
  }

  ghost function Run(docs: map<string, Doc>, events: seq<Event>): Trace {
    if events == [] then Trace(Start(docs), map[], [])
    else Follow(Run(docs, events[..|events| - 1]), events[|events| - 1])
  }

  // ---- The serial execution -------------------------------------------------------------------

  function UpdatedDocs(docs: map<string, Doc>, file: string, doc: Option<Doc>): map<string, Doc> {
    if doc.Some? then docs[file := doc.value] else docs
  }

  /** One action on its own: a session that nobody interrupts types all its lines and
      commits; a command runs. */
  function Perform(docs: map<string, Doc>, a: Action): map<string, Doc> {
    if a.file !in docs then docs
    else
      var doc := docs[a.file];
      match a
      case Session(file, sentence, lines, time, user) =>
        if sentence < 1 || Typed(doc.content, sentence, lines).None? then docs
        else docs[file := Rewrite(doc, file, time, user, SessionAlone(doc.content, sentence, lines))]
      case UndoOf(file) => UpdatedDocs(docs, file, Undo(doc))
      case CheckpointOf(file, tag) => UpdatedDocs(docs, file, Checkpoint(doc, tag))
      case RevertOf(file, tag, time, user) => UpdatedDocs(docs, file, Revert(doc, file, tag, time, user))
  }

  function Serial(docs: map<string, Doc>, log: seq<Action>): map<string, Doc> {
    if log == [] then docs else Perform(Serial(docs, log[..|log| - 1]), log[|log| - 1])
  }

  /** Every logged session could lock its sentence at its turn in the serial execution. */
  ghost predicate Admitted(docs: map<string, Doc>, log: seq<Action>) {
    log == [] ||
    var before, a := log[..|log| - 1], log[|log| - 1];
    Admitted(docs, before) && AllFull(Serial(docs, before)) && a.file in Serial(docs, before) &&
    (a.Session? ==> Admissible(Serial(docs, before)[a.file].content, a.sentence) &&
                    Typed(Serial(docs, before)[a.file].content, a.sentence, a.lines).Some?)
  }

  lemma SerialSnoc(docs: map<string, Doc>, log: seq<Action>, a: Action)
    ensures Serial(docs, log + [a]) == Perform(Serial(docs, log), a)
    ensures Admitted(docs, log) && AllFull(Serial(docs, log)) && a.file in Serial(docs, log) &&
            (a.Session? ==> Admissible(Serial(docs, log)[a.file].content, a.sentence) &&
                            Typed(Serial(docs, log)[a.file].content, a.sentence, a.lines).Some?)
            ==> Admitted(docs, log + [a])
  {
    assert (log + [a])[..|log|] == log;
  }

  // ---- The invariant --------------------------------------------------------------------------

  /** No document is blank, which is more than empty. */
  ghost predicate AllFull(docs: map<string, Doc>) {
    forall file :: file in docs ==> !Blank(docs[file].content)
  }

  /** An open session of a client on a document: its sentence can be locked, and its draft
      holds what its lines make of that sentence as it stands in the live document now. */
  ghost predicate SessionFits(doc: Doc, sentence: int, draft: Option<string>, lines: seq<Line>) {
    var live := doc.content;
    Admissible(live, sentence) &&
    Follows(draft, sentence, Slot(live, sentence), TypedLocal(Slot(live, sentence), lines)) &&
    (SentencesOf(live) == [] ==> draft == Typed(live, sentence, lines))
  }

  ghost predicate LockFits(tr: Trace, l: Lock) {
    l.fd in tr.st.users && l.fd in tr.typed && l.file in tr.st.docs &&
    SessionFits(tr.st.docs[l.file], l.sentence, DraftOf(tr.st, l), tr.typed[l.fd])
  }

  ghost predicate Inv(tr: Trace, docs: map<string, Doc>) {
    var st := tr.st;
    st.docs == Serial(docs, tr.log) && AllFull(st.docs) && Admitted(docs, tr.log) &&
    Exclusive(st.locks) && (forall l :: l in st.locks ==> LockFits(tr, l)) &&
    (forall l :: l in st.drafts ==> l in st.locks || l.fd !in st.users) &&
    (forall l :: l in st.drafts ==> l.fd in st.seen) && st.users.Keys <= st.seen
  }

  // ---- The steps ------------------------------------------------------------------------------

  lemma NewSessionFits(doc: Doc, sentence: int)
    requires !Blank(doc.content) && 1 <= sentence <= Available(doc.content)
    ensures SessionFits(doc, sentence, None, [])
  {
    AdmissionExact(doc.content);
  }

  lemma WriteKeeps(tr: Trace, docs: map<string, Doc>, fd: int, file: string, sentence: int)
    requires Inv(tr, docs)
    ensures Inv(Follow(tr, Write(fd, file, sentence)), docs)
  {
    hide SessionFits, Serial, Available, Blank, Admitted;
    var st, tr' := tr.st, Follow(tr, Write(fd, file, sentence));
    if WriteAdmitted(st, fd, file, sentence) {
      var lock := Lock(file, sentence, fd);
      assert lock !in st.drafts;
      NewSessionFits(st.docs[file], sentence);
      ExclusivePush(st.locks, lock);
      forall l | l in tr'.st.locks
        ensures LockFits(tr', l)
      {
        if l != lock {
          assert l in st.locks && LockFits(tr, l) && l.fd != fd;
        }
      }
    }
  }

  lemma TypeFits(doc: Doc, sentence: int, draft: Option<string>, lines: seq<Line>, line: Line)
    requires SessionFits(doc, sentence, draft, lines)
    ensures SessionFits(doc, sentence, Apply(doc.content, sentence, draft, line), lines + [line])
  {
    hide Apply, ApplyLocal, Follows;
    ApplyFollows(doc.content, sentence, draft, TypedLocal(Slot(doc.content, sentence), lines), line);
    assert (lines + [line])[..|lines|] == lines;
  }

  lemma TypeKeeps(tr: Trace, docs: map<string, Doc>, fd: int, line: Line)
    requires Inv(tr, docs)
    ensures Inv(Follow(tr, Type(fd, line)), docs)
  {
    hide SessionFits, Serial, Apply, Blank, Admitted;
    var st, tr' := tr.st, Follow(tr, Type(fd, line));
    if fd in st.users && WriteMode(st, fd) {
      var lock := LockOf(st.locks, fd).value;
      assert LockFits(tr, lock);
      SentencePositive(st.docs[lock.file], lock.sentence, DraftOf(st, lock), tr.typed[fd]);
      TypeFits(st.docs[lock.file], lock.sentence, DraftOf(st, lock), tr.typed[fd], line);
      var draft := Apply(st.docs[lock.file].content, lock.sentence, DraftOf(st, lock), line);
      assert draft.None? ==> DraftOf(st, lock).None? by {
        ApplyKeepsDraft(st.docs[lock.file].content, lock.sentence, DraftOf(st, lock), line);
      }
      forall l | l in tr'.st.locks
        ensures LockFits(tr', l)
      {
        assert LockFits(tr, l);
        if l != lock {
          DifferentSentences(st.locks, l, lock);
          assert DraftOf(tr'.st, l) == DraftOf(st, l);
        }
      }
    }
  }

  lemma SentencePositive(doc: Doc, sentence: int, draft: Option<string>, lines: seq<Line>)
    requires SessionFits(doc, sentence, draft, lines)
    ensures 1 <= sentence && Admissible(doc.content, sentence)
  {
  }

  lemma ApplyKeepsDraft(live: string, n: int, draft: Option<string>, line: Line)
    requires 1 <= n
    ensures draft.Some? ==> Apply(live, n, draft, line).Some?
  {
  }

  /** A commit of one session keeps every other session on the document going. */
  lemma CommitFits(doc: Doc, n: int, lines: seq<Line>, draft: string, doc': Doc, m: int,
      other: Option<string>, otherLines: seq<Line>)
    requires SessionFits(doc, n, Some(draft), lines) && SessionFits(doc, m, other, otherLines) && m != n
    requires !Blank(doc.content) && doc'.content == SessionAlone(doc.content, n, lines)
    ensures SessionFits(doc', m, other, otherLines)
  {
    hide TypedLocal, Typed, SessionAlone, Follows;
    assert SentencesOf(doc.content) != [] by { OnlyFirstOfEmpty(doc.content, n, m); }
    SessionFrame(doc.content, n, lines, m);
  }

  lemma OnlyFirstOfEmpty(live: string, n: int, m: int)
    requires Admissible(live, n) && Admissible(live, m) && n != m
    ensures SentencesOf(live) != []
  {
  }

  /** The committed content is the one the session would have left on its own. */
  lemma CommitIsAlone(doc: Doc, n: int, lines: seq<Line>, draft: string)
    requires SessionFits(doc, n, Some(draft), lines) && !Blank(doc.content)
    ensures Typed(doc.content, n, lines).Some?
    ensures Merge(doc.content, n, draft) == SessionAlone(doc.content, n, lines)
    ensures !Blank(SessionAlone(doc.content, n, lines))
  {
    var live := doc.content;
    CommitAsAlone(live, n, lines, Some(draft));
    SessionNotBlank(live, n, lines);
  }

  lemma SessionNotBlank(live: string, n: int, lines: seq<Line>)
    requires Admissible(live, n) && !Blank(live)
    ensures !Blank(SessionAlone(live, n, lines))
  {
    TypedFollows(live, n, lines);
    if Typed(live, n, lines).Some? {
      var v := TypedLocal(Slot(live, n), lines).value;
      SlotClosedKept(live, n, lines);
      MergeIsLocal(live, n, Typed(live, n, lines).value, v);
      assert SentencesOf(SessionAlone(live, n, lines)) != [];
    }
  }

  lemma EtirwKeeps(tr: Trace, docs: map<string, Doc>, fd: int, time: int)
    requires Inv(tr, docs)
    ensures Inv(Follow(tr, Etirw(fd, time)), docs)
  {
    hide SessionFits, Serial, Admitted, Typed, SessionAlone, Merge, Rewrite, Blank, Apply;
    var st, tr' := tr.st, Follow(tr, Etirw(fd, time));
    if fd in st.users && WriteMode(st, fd) {
      var lock := LockOf(st.locks, fd).value;
      assert LockFits(tr, lock);
      RemovedMembers(st.locks, lock);
      var doc, lines := st.docs[lock.file], tr.typed[fd];
      SentencePositive(doc, lock.sentence, DraftOf(st, lock), lines);
      if lock in st.drafts {
        var draft := st.drafts[lock];
        CommitIsAlone(doc, lock.sentence, lines, draft);
        var content := SessionAlone(doc.content, lock.sentence, lines);
        var doc' := CommitDoc(doc, lock, draft, time, st.users[fd]);
        SerialSnoc(docs, tr.log, Session(lock.file, lock.sentence, lines, time, st.users[fd]));
        CommittedContent(doc, lock.file, time, st.users[fd], content);
        forall l | l in tr'.st.locks
          ensures LockFits(tr', l)
        {
          assert LockFits(tr, l) && l in st.locks;
          DifferentSentences(st.locks, l, lock);
          if l.file == lock.file {
            CommitFits(doc, lock.sentence, lines, draft, doc', l.sentence, DraftOf(st, l), tr.typed[l.fd]);
          }
        }
      } else {
        assert tr.log + [] == tr.log;
        assert forall l | l in tr'.st.locks :: LockFits(tr, l);
      }
    } else {
      assert tr.log + [] == tr.log;
    }
  }

  lemma CommittedContent(doc: Doc, file: string, time: int, user: string, content: string)
    ensures Rewrite(doc, file, time, user, content).content == content
  {
  }

  /** UNDO, CHECKPOINT and REVERT happen on files nobody edits. */
  lemma CommandKeeps(tr: Trace, docs: map<string, Doc>, file: string, doc': Doc, a: Action, tr': Trace)
    requires Inv(tr, docs) && file in tr.st.docs && !FileHeld(tr.st.locks, file)
    requires !a.Session? && a.file == file && Perform(tr.st.docs, a) == tr.st.docs[file := doc'] && !Blank(doc'.content)
    requires tr' == Trace(tr.st.(docs := tr.st.docs[file := doc']), tr.typed, tr.log + [a])
    ensures Inv(tr', docs)
  {
    hide SessionFits, Serial, Admitted, Blank, Perform;
    SerialSnoc(docs, tr.log, a);
    forall l | l in tr'.st.locks
      ensures LockFits(tr', l)
    {
      assert LockFits(tr, l) && l.file != file;
    }
  }

  /** What is asked of UNDO and REVERT: they bring no blank content back. */
  ghost predicate StaysFull(st: State, e: Event) {
    e.UndoFile? || e.RevertFile? ==> AllFull(Step(st, e).docs)
  }

  lemma SameDocsKeep(docs: map<string, Doc>, file: string)
    requires file in docs
    ensures docs[file := docs[file]] == docs
  {
  }

  lemma CommandsKeep(tr: Trace, docs: map<string, Doc>, e: Event)
    requires Inv(tr, docs) && (e.UndoFile? || e.CheckpointFile? || e.RevertFile?) && StaysFull(tr.st, e)
    ensures Inv(Follow(tr, e), docs)
  {
    hide SessionFits, Serial, Admitted, Undo, Checkpoint, Revert, Blank, LockFits;
    var st, tr', file := tr.st, Follow(tr, e), e.file;
    if Quiet(st, e.fd, file) {
      var doc, doc' := st.docs[file], tr'.st.docs[file];
      SameDocsKeep(st.docs, file);
      match e
      case UndoFile(fd, _) => CommandKeeps(tr, docs, file, doc', UndoOf(file), tr');
      case CheckpointFile(fd, _, tag) =>
        CheckpointKeepsContent(doc, tag);
        CommandKeeps(tr, docs, file, doc', CheckpointOf(file, tag), tr');
      case RevertFile(fd, _, tag, time) =>
        CommandKeeps(tr, docs, file, doc', RevertOf(file, tag, time, st.users[fd]), tr');
    }
  }

  lemma CheckpointKeepsContent(doc: Doc, tag: string)
    ensures Checkpoint(doc, tag).Some? ==> Checkpoint(doc, tag).value.content == doc.content
  {
  }

  lemma ConnectionsKeep(tr: Trace, docs: map<string, Doc>, e: Event)
    requires Inv(tr, docs) && (e.Connect? || e.Disconnect?)
    ensures Inv(Follow(tr, e), docs)
  {
    hide SessionFits, Serial, Admitted, Blank;
    var st, tr' := tr.st, Follow(tr, e);
    if e.Disconnect? {
      WithoutClientExclusive(st.locks, e.fd);
    }
    forall l | l in tr'.st.locks
      ensures LockFits(tr', l)
    {
      assert LockFits(tr, l);
    }
  }

  lemma StepKeeps(tr: Trace, docs: map<string, Doc>, e: Event)
    requires Inv(tr, docs) && StaysFull(tr.st, e)
    ensures Inv(Follow(tr, e), docs)
  {
    hide Inv, Follow, StaysFull;
    match e
    case Connect(_, _) => ConnectionsKeep(tr, docs, e);
    case Write(fd, file, sentence) => WriteKeeps(tr, docs, fd, file, sentence);
    case Type(fd, line) => TypeKeeps(tr, docs, fd, line);
    case Etirw(fd, time) => EtirwKeeps(tr, docs, fd, time);
    case UndoFile(_, _) => CommandsKeep(tr, docs, e);
    case CheckpointFile(_, _, _) => CommandsKeep(tr, docs, e);
    case RevertFile(_, _, _, _) => CommandsKeep(tr, docs, e);
    case Disconnect(_) => ConnectionsKeep(tr, docs, e);
  }
}
