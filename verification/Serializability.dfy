/** Every interleaving of write sessions and file commands leaves each document, its
    backups, undo log and checkpoints exactly as running the committed sessions and the
    commands one at a time, in the order they took effect. */
module Serializability {
  import opened Text
  import opened Sentences
  import opened Editing
  import opened Editor
  import opened UndoLog
  import opened Documents
  import opened LockList
  import opened StorageServer
  import opened Traces

  /** At no moment of the run is a document blank. */
  ghost predicate NeverBlank(docs: map<string, Doc>, events: seq<Event>) {
    forall k | 0 <= k <= |events| :: AllFull(Run(docs, events[..k]).st.docs)
  }

  lemma NeverBlankPrefix(docs: map<string, Doc>, events: seq<Event>)
    requires events != [] && NeverBlank(docs, events)
    ensures var n := |events| - 1;
      NeverBlank(docs, events[..n]) && StaysFull(Run(docs, events[..n]).st, events[n])
  {
    hide Run, AllFull, Follow;
    var n := |events| - 1;
    forall k | 0 <= k <= n ensures AllFull(Run(docs, events[..n][..k]).st.docs) {
      assert events[..n][..k] == events[..k];
    }
    assert events[..n + 1] == events;
    RunEnds(docs, events);
  }

  lemma RunEnds(docs: map<string, Doc>, events: seq<Event>)
    requires events != []
    ensures Run(docs, events).st == Step(Run(docs, events[..|events| - 1]).st, events[|events| - 1])
  {
    hide Step;
  }

  lemma {:induction false} RunKeeps(docs: map<string, Doc>, events: seq<Event>)
    requires NeverBlank(docs, events)
    ensures Inv(Run(docs, events), docs)
  {
    hide Follow, AllFull, StaysFull;
    if events == [] {
      assert events[..0] == [];
      StartKeeps(docs);
    } else {
      NeverBlankPrefix(docs, events);
      RunKeeps(docs, events[..|events| - 1]);
      StepKeeps(Run(docs, events[..|events| - 1]), docs, events[|events| - 1]);
    }
  }

  lemma StartKeeps(docs: map<string, Doc>)
    requires AllFull(docs)
    ensures Inv(Run(docs, []), docs)
  {
  }

  /** Serializability: for every interleaving of any number of connections during which no
      document is blank, the documents at the end, with their backups, undo logs and
      checkpoints, are those of the serial execution of what took effect. */
  lemma Serializable(docs: map<string, Doc>, events: seq<Event>)
    requires NeverBlank(docs, events)
    ensures Run(docs, events).st.docs == Serial(docs, Run(docs, events).log)
  {
    RunKeeps(docs, events);
  }

  /** While a file is locked, commits are all that changes it. */
  lemma OnlyCommitsTouch(st: State, e: Event, l: Lock)
    requires l in st.locks && l.file in st.docs && !e.Etirw?
    ensures l.file in Step(st, e).docs && Step(st, e).docs[l.file] == st.docs[l.file]
  {
    hide Apply, Undo, Checkpoint, Revert, Available;
  }

  /** A locked sentence is changed by nobody but its holder: any step other than the
      holder's own commit leaves it, and the right to write it, as they were. */
  lemma LockedSentenceStable(docs: map<string, Doc>, events: seq<Event>, e: Event, l: Lock)
    requires NeverBlank(docs, events) && l in Run(docs, events).st.locks
    requires e.Etirw? ==> e.fd != l.fd
    ensures var before, after := Run(docs, events).st.docs, Step(Run(docs, events).st, e).docs;
      l.file in before && l.file in after &&
      Admissible(before[l.file].content, l.sentence) && Admissible(after[l.file].content, l.sentence) &&
      Slot(after[l.file].content, l.sentence) == Slot(before[l.file].content, l.sentence)
  {
    hide SessionFits, Serial, Admitted, Typed, SessionAlone, Merge, Rewrite, Blank, Apply, TypedLocal, Undo,
      Checkpoint, Revert, Slot, Admissible;
    var tr := Run(docs, events);
    RunKeeps(docs, events);
    assert LockFits(tr, l);
    SentencePositive(tr.st.docs[l.file], l.sentence, DraftOf(tr.st, l), tr.typed[l.fd]);
    if !e.Etirw? {
      OnlyCommitsTouch(tr.st, e, l);
    } else if e.fd in tr.st.users && WriteMode(tr.st, e.fd) {
      var lock := LockOf(tr.st.locks, e.fd).value;
      assert LockFits(tr, lock);
      DifferentSentences(tr.st.locks, l, lock);
      if lock.file == l.file && lock in tr.st.drafts {
        var doc, lines, draft := tr.st.docs[lock.file], tr.typed[e.fd], tr.st.drafts[lock];
        SentencePositive(doc, lock.sentence, Some(draft), lines);
        CommitIsAlone(doc, lock.sentence, lines, draft);
        CommittedContent(doc, lock.file, e.time, tr.st.users[e.fd], SessionAlone(doc.content, lock.sentence, lines));
        OnlyFirstOfEmpty(doc.content, lock.sentence, l.sentence);
        SessionFrame(doc.content, lock.sentence, lines, l.sentence);
      }
    }
  }

  /** Mutual exclusion in every run, whatever the files hold: one holder per sentence, one
      sentence per client. */
  lemma {:induction false} LocksExclusive(docs: map<string, Doc>, events: seq<Event>)
    ensures Exclusive(Run(docs, events).st.locks)
  {
    hide Exclusive, Available, Updated, Apply, CommitDoc;
    if events == [] {
      assert Exclusive([]) by { NothingExclusive(); }
    } else {
      var before, e := events[..|events| - 1], events[|events| - 1];
      LocksExclusive(docs, before);
      var st := Run(docs, before).st;
      match e
      case Write(fd, file, sentence) =>
        if WriteAdmitted(st, fd, file, sentence) {
          ExclusivePush(st.locks, Lock(file, sentence, fd));
        }
      case Etirw(fd, _) =>
        if WriteMode(st, fd) {
          RemovedMembers(st.locks, LockOf(st.locks, fd).value);
        }
      case Disconnect(fd) => WithoutClientExclusive(st.locks, fd);
      case _ =>
        assert Step(st, e).locks == st.locks by { UpdatedLocks(st); }
    }
  }

  lemma NothingExclusive()
    ensures Exclusive([])
  {
  }

  lemma UpdatedLocks(st: State)
    ensures forall file, doc :: Updated(st, file, doc).locks == st.locks
  {
  }
}
