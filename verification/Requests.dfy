/** What each request of the editing protocol does, and when it is refused, read off the
    lists and maps of the state alone. */
module Requests {
  import opened Text
  import opened Sentences
  import opened Editing
  import opened Editor
  import opened Documents
  import opened UndoLog
  import opened LockList
  import opened StorageServer

  /** UNDO, CHECKPOINT and REVERT are carried out for a client that edits nothing, on a file
      that nobody edits, whatever else is being edited; otherwise nothing changes. */
  lemma CommandsServed(st: State, fd: int, file: string, tag: string, time: int)
    ensures var undo, checkpoint, revert :=
        Step(st, UndoFile(fd, file)), Step(st, CheckpointFile(fd, file, tag)), Step(st, RevertFile(fd, file, tag, time));
      if fd in st.users && file in st.docs && forall l :: l in st.locks ==> l.fd != fd && l.file != file
      then
        var doc := st.docs[file];
        var undone, taken, reverted := Undo(doc), Checkpoint(doc, tag), Revert(doc, file, tag, time, st.users[fd]);
        undo == (if undone.Some? then st.(docs := st.docs[file := undone.value]) else st) &&
        checkpoint == (if taken.Some? then st.(docs := st.docs[file := taken.value]) else st) &&
        revert == (if reverted.Some? then st.(docs := st.docs[file := reverted.value]) else st)
      else undo == checkpoint == revert == st
  {
    hide Undo, Checkpoint, Revert;
  }

  /** WRITE puts its lock in front exactly for a client that edits nothing, on a sentence
      that nobody else holds and that exists, or would be next after a finished last one; a
      blank file has a sentence 2 as well. */
  lemma WriteServed(st: State, fd: int, file: string, sentence: int)
    ensures Step(st, Write(fd, file, sentence)) ==
      if fd in st.users && file in st.docs &&
        (forall l :: l in st.locks ==> l.fd != fd && !(l.file == file && l.sentence == sentence)) &&
        var content := st.docs[file].content;
        var gs := SentencesOf(content);
        1 <= sentence &&
        (sentence <= |gs| || (gs == [] && sentence <= if content == "" then 1 else 2) ||
         (gs != [] && sentence == |gs| + 1 &&
          var g := gs[|gs| - 1];
          g != [] && g[|g| - 1] != "" && g[|g| - 1][|g[|g| - 1]| - 1] in {'.', '!', '?'}))
      then st.(locks := [Lock(file, sentence, fd)] + st.locks)
      else st
  {
    hide Available;
    if file in st.docs {
      LastAvailable(st.docs[file].content);
    }
    assert forall l :: l in st.locks && l.fd == fd ==> WriteMode(st, fd);
  }

  lemma LastAvailable(content: string)
    ensures var gs := SentencesOf(content);
      Available(content) ==
      if gs == [] then if content == "" then 1 else 2
      else |gs| + if Closed(gs[|gs| - 1]) then 1 else 0
  {
    hide Tokens, Parse;
    var ws := Tokens(content, EDITOR_SEPS);
    if ws != [] {
      ParseNonemptyClosed(ws);
    }
    NothingParsed();
  }

  /** A line of a client that holds a lock changes its own draft, which starts from the live
      file, as the insertion does, and nothing else; a line that fails changes nothing. */
  lemma LineServed(st: State, fd: int, line: Line, l: Lock)
    requires Exclusive(st.locks) && l in st.locks && l.fd == fd && fd in st.users
    requires l.file in st.docs && 1 <= l.sentence
    ensures var current := if l in st.drafts then st.drafts[l] else st.docs[l.file].content;
      var typed := if 1 <= line.index && ValidText(line.text) then Insert(current, l.sentence, line.index, line.text) else None;
      Step(st, Type(fd, line)) == if typed.Some? then st.(drafts := st.drafts[l := typed.value]) else st
  {
    hide Insert, ValidText;
    OwnLock(st.locks, l);
    if l in st.drafts {
      assert st.drafts[l := st.drafts[l]] == st.drafts;
    }
  }

  /** A commit frees the client's lock and no other. With a draft it backs the file up and
      merges the draft's sentence into it, and the draft is gone; all other files and drafts
      stay. */
  lemma CommitServed(st: State, fd: int, time: int, l: Lock)
    requires Exclusive(st.locks) && l in st.locks && l.fd == fd && fd in st.users
    requires l.file in st.docs && 1 <= l.sentence
    ensures var st' := Step(st, Etirw(fd, time));
      (forall m :: m in st'.locks <==> m in st.locks && m != l) && st'.users == st.users && st'.seen == st.seen &&
      if l !in st.drafts then st'.docs == st.docs && st'.drafts == st.drafts
      else
        st'.drafts == st.drafts - {l} && st'.docs.Keys == st.docs.Keys &&
        (forall file :: file in st.docs && file != l.file ==> st'.docs[file] == st.docs[file]) &&
        var doc, doc' := st.docs[l.file], st'.docs[l.file];
        doc'.content == Merge(doc.content, l.sentence, st.drafts[l]) && doc'.checkpoints == doc.checkpoints &&
        doc'.backups == doc.backups[BackupName(l.file, time) := doc.content] &&
        doc'.undo == doc.undo + BackupLine(time, BackupName(l.file, time), st.users[fd])
  {
    hide Merge, BackupName, BackupLine;
    OwnLock(st.locks, l);
    RemovedMembers(st.locks, l);
  }

  /** Lines and commits of anybody else change nothing. */
  lemma NotWriting(st: State, fd: int, line: Line, time: int)
    requires fd !in st.users || forall l :: l in st.locks ==> l.fd != fd
    ensures Step(st, Type(fd, line)) == st && Step(st, Etirw(fd, time)) == st
  {
  }

  /** A client's end frees its locks and no others, and leaves files and drafts alone; its
      connection id names nobody any more, and a new one is not used twice. */
  lemma ConnectionServed(st: State, fd: int, user: string)
    ensures var left := Step(st, Disconnect(fd));
      (forall l :: l in left.locks <==> l in st.locks && l.fd != fd) && left.users == st.users - {fd} &&
      left.docs == st.docs && left.drafts == st.drafts && left.seen == st.seen
    ensures Step(st, Connect(fd, user)) ==
      if fd in st.seen then st else st.(users := st.users[fd := user], seen := st.seen + {fd})
  {
    forall l ensures l in WithoutClient(st.locks, fd) <==> l in st.locks && l.fd != fd {
      WithoutClientMembers(st.locks, fd, l);
    }
  }

  lemma OwnLock(locks: seq<Lock>, l: Lock)
    requires Exclusive(locks) && l in locks
    ensures LockOf(locks, l.fd) == Some(l)
  {
    var m := LockOf(locks, l.fd);
    if m != Some(l) {
      DifferentSentences(locks, l, m.value);
    }
  }
}
