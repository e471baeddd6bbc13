/** The editing protocol of the storage server as a state machine over client events. */
module StorageServer {
  import opened Text
  import opened Sentences
  import opened Editing
  import opened Editor
  import opened Documents
  import opened LockList

  /** What client threads read and change: the files with their histories, the lock list,
      the draft files by file, sentence and connection, and the connections with their
      user names. `seen` keeps every connection id ever used. */
  datatype State = State(
    docs: map<string, Doc>,
    locks: seq<Lock>,
    drafts: map<Lock, string>,
    users: map<int, string>,
    seen: set<int>)

  /** One request of a direct connection, or its end. Each is one atomic step. */
  datatype Event =
    | Connect(fd: int, user: string)
    | Write(fd: int, file: string, sentence: int)
    | Type(fd: int, line: Line)
    | Etirw(fd: int, time: int)
    | UndoFile(fd: int, file: string)
    | CheckpointFile(fd: int, file: string, tag: string)
    | RevertFile(fd: int, file: string, tag: string, time: int)
    | Disconnect(fd: int)

  /** A client that holds a lock is in write mode: only lines and ETIRW reach it. */
  predicate WriteMode(st: State, fd: int) {
    LockOf(st.locks, fd).Some?
  }

  predicate Commanding(st: State, fd: int) {
    fd in st.users && !WriteMode(st, fd)
  }

  ghost predicate WriteAdmitted(st: State, fd: int, file: string, sentence: int) {
    Commanding(st, fd) && file in st.docs && 1 <= sentence <= Available(st.docs[file].content) &&
    !HeldByOther(st.locks, file, sentence, fd)
  }

  ghost function StepWrite(st: State, fd: int, file: string, sentence: int): State {
    if WriteAdmitted(st, fd, file, sentence)
    then st.(locks := [Lock(file, sentence, fd)] + st.locks)
    else st
  }

  function DraftOf(st: State, lock: Lock): Option<string> {
    if lock in st.drafts then Some(st.drafts[lock]) else None
  }

  ghost function StepType(st: State, fd: int, line: Line): State {
    if fd !in st.users || !WriteMode(st, fd) then st
    else
      var lock := LockOf(st.locks, fd).value;
      if lock.file !in st.docs || lock.sentence < 1 then st
      else
        var draft := Apply(st.docs[lock.file].content, lock.sentence, DraftOf(st, lock), line);
        if draft.Some? then st.(drafts := st.drafts[lock := draft.value]) else st
  }

  /** The committed document: a backup, then the merged content. */
  function CommitDoc(doc: Doc, lock: Lock, draft: string, time: int, user: string): Doc
    requires 1 <= lock.sentence
  {
    Rewrite(doc, lock.file, time, user, Merge(doc.content, lock.sentence, draft))
  }

  ghost function StepEtirw(st: State, fd: int, time: int): State {
    if fd !in st.users || !WriteMode(st, fd) then st
    else
      var lock := LockOf(st.locks, fd).value;
      var released := st.(locks := RemoveFirst(st.locks, lock));
      if lock !in st.drafts || lock.file !in st.docs || lock.sentence < 1 then released
      else released.(
        docs := st.docs[lock.file := CommitDoc(st.docs[lock.file], lock, st.drafts[lock], time, st.users[fd])],
        drafts := st.drafts - {lock})
  }

  /** UNDO, CHECKPOINT and REVERT are refused while anybody edits the file. */
  ghost predicate Quiet(st: State, fd: int, file: string) {
    Commanding(st, fd) && !FileHeld(st.locks, file) && file in st.docs
  }

  function Updated(st: State, file: string, doc: Option<Doc>): State {
    if doc.Some? then st.(docs := st.docs[file := doc.value]) else st
  }

  ghost function Step(st: State, e: Event): State {
    match e
    case Connect(fd, user) =>
      if fd in st.seen then st else st.(users := st.users[fd := user], seen := st.seen + {fd})
    case Write(fd, file, sentence) => StepWrite(st, fd, file, sentence)
    case Type(fd, line) => StepType(st, fd, line)
    case Etirw(fd, time) => StepEtirw(st, fd, time)
    case UndoFile(fd, file) =>
      if Quiet(st, fd, file) then Updated(st, file, Undo(st.docs[file])) else st
    case CheckpointFile(fd, file, tag) =>
      if Quiet(st, fd, file) then Updated(st, file, Checkpoint(st.docs[file], tag)) else st
    case RevertFile(fd, file, tag, time) =>
      if Quiet(st, fd, file) then Updated(st, file, Revert(st.docs[file], file, tag, time, st.users[fd])) else st
    case Disconnect(fd) =>
      st.(locks := WithoutClient(st.locks, fd), users := st.users - {fd})
  }

  function Start(docs: map<string, Doc>): State {
    State(docs, [], map[], map[], {})
  }
}
