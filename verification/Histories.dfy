/** Which contents can come back: when a run of the editor never reaches a blank document,
    whatever backups and checkpoints it started with. */
module Histories {
  import opened Text
  import opened Decimal
  import opened Sentences
  import opened Editing
  import opened Editor
  import opened UndoLog
  import opened Documents
  import opened LockList
  import opened StorageServer
  import opened Traces
  import opened Serializability
  import UndoStack

  // ---- No blank backup at all ---------------------------------------------------------------------

  /** No content the document has or could go back to is blank. */
  ghost predicate Sound(doc: Doc) {
    !Blank(doc.content) &&
    (forall name :: name in doc.backups ==> !Blank(doc.backups[name])) &&
    (forall tag :: tag in doc.checkpoints ==> !Blank(doc.checkpoints[tag]))
  }

  ghost predicate AllSound(docs: map<string, Doc>) {
    forall file :: file in docs ==> Sound(docs[file])
  }

  lemma UndoSound(doc: Doc)
    requires Sound(doc)
    ensures Undo(doc).Some? ==> Sound(Undo(doc).value)
  {
    hide Blank, SortNewest, LoadLog, SaveLog;
  }

  lemma RewriteSound(doc: Doc, file: string, time: int, user: string, content: string)
    requires Sound(doc) && !Blank(content)
    ensures Sound(Rewrite(doc, file, time, user, content))
  {
    hide Blank, BackupName, BackupLine;
  }

  /** What one step may do to a document, seen from its histories alone. */
  ghost predicate Changed(doc: Doc, doc': Doc, st: State, e: Event, file: string) {
    doc' == doc ||
    (e.Etirw? && e.fd in st.users && !Blank(doc'.content) &&
      doc' == Rewrite(doc, file, e.time, st.users[e.fd], doc'.content)) ||
    (e.UndoFile? && Undo(doc) == Some(doc')) ||
    (e.CheckpointFile? && Checkpoint(doc, e.tag) == Some(doc')) ||
    (e.RevertFile? && e.fd in st.users && Revert(doc, file, e.tag, e.time, st.users[e.fd]) == Some(doc'))
  }

  /** Every step of a sound trace changes a document in one of these ways. */
  lemma StepChanges(tr: Trace, docs: map<string, Doc>, e: Event, file: string)
    requires Inv(tr, docs)
    ensures Step(tr.st, e).docs.Keys == tr.st.docs.Keys
    ensures file in tr.st.docs ==> Changed(tr.st.docs[file], Step(tr.st, e).docs[file], tr.st, e, file)
  {
    hide Serial, Admitted, Exclusive, SessionFits, Rewrite, Undo, Checkpoint, Revert, Blank, Merge, Apply, Available;
    if e.Etirw? && e.fd in tr.st.users && WriteMode(tr.st, e.fd) {
      var lock := LockOf(tr.st.locks, e.fd).value;
      assert LockFits(tr, lock);
      if lock in tr.st.drafts {
        var doc, lines, draft := tr.st.docs[lock.file], tr.typed[e.fd], tr.st.drafts[lock];
        SentencePositive(doc, lock.sentence, Some(draft), lines);
        CommitIsAlone(doc, lock.sentence, lines, draft);
        CommittedContent(doc, lock.file, e.time, tr.st.users[e.fd], Merge(doc.content, lock.sentence, draft));
      }
    }
  }

  lemma NeverBlankSnoc(docs: map<string, Doc>, events: seq<Event>)
    requires events != [] && NeverBlank(docs, events[..|events| - 1]) && AllFull(Run(docs, events).st.docs)
    ensures NeverBlank(docs, events)
  {
    hide Run, AllFull;
    var n := |events| - 1;
    forall k | 0 <= k <= |events| ensures AllFull(Run(docs, events[..k]).st.docs) {
      if k <= n {
        assert events[..n][..k] == events[..k];
      } else {
        assert events[..k] == events;
      }
    }
  }

  lemma SoundIsFull(docs: map<string, Doc>)
    requires AllSound(docs)
    ensures AllFull(docs)
  {
  }

  lemma SoundStep(doc: Doc, doc': Doc, st: State, e: Event, file: string)
    requires Sound(doc) && Changed(doc, doc', st, e, file)
    ensures Sound(doc')
  {
    hide Blank, Sound, Rewrite, Undo, Checkpoint, Revert;
    UndoSound(doc);
    SoundContent(doc);
    if doc' == doc {
    } else if e.Etirw? {
      RewriteSound(doc, file, e.time, st.users[e.fd], doc'.content);
    } else if e.CheckpointFile? {
      CheckpointSound(doc, e.tag);
    } else if e.RevertFile? {
      RevertSound(doc, file, e.tag, e.time, st.users[e.fd]);
    }
  }

  lemma SoundContent(doc: Doc)
    requires Sound(doc)
    ensures !Blank(doc.content)
  {
  }

  lemma CheckpointSound(doc: Doc, tag: string)
    requires Sound(doc)
    ensures Checkpoint(doc, tag).Some? ==> Sound(Checkpoint(doc, tag).value)
  {
    hide Blank;
  }

  lemma RevertSound(doc: Doc, file: string, tag: string, time: int, user: string)
    requires Sound(doc)
    ensures Revert(doc, file, tag, time, user).Some? ==> Sound(Revert(doc, file, tag, time, user).value)
  {
    hide Blank, Rewrite;
    if tag in doc.checkpoints {
      RewriteSound(doc, file, time, user, doc.checkpoints[tag]);
    }
  }

  /** Where no document, backup or checkpoint is blank, no run ever reaches a blank one. */
  lemma {:induction false} SoundNeverBlank(docs: map<string, Doc>, events: seq<Event>)
    requires AllSound(docs)
    ensures NeverBlank(docs, events) && AllSound(Run(docs, events).st.docs)
  {
    hide Follow, Step, Sound, Inv, Changed;
    if events == [] {
      SoundIsFull(docs);
      assert events[..0] == [];
    } else {
      var before, e := events[..|events| - 1], events[|events| - 1];
      SoundNeverBlank(docs, before);
      RunKeeps(docs, before);
      RunEnds(docs, events);
      var tr, st' := Run(docs, before), Run(docs, events).st;
      forall file | file in st'.docs ensures Sound(st'.docs[file]) {
        StepChanges(tr, docs, e, file);
        SoundStep(tr.st.docs[file], st'.docs[file], tr.st, e, file);
      }
      StepChanges(tr, docs, e, "");
      SoundIsFull(st'.docs);
      NeverBlankSnoc(docs, events);
    }
  }

  // ---- Blank backups out of reach -----------------------------------------------------------------

  ghost predicate HoldsBlank(doc: Doc, r: Record) {
    r.used == 0 && r.name in doc.backups && Blank(doc.backups[r.name])
  }

  /** A backup that is always undone before `r`, and never used up. */
  ghost predicate Shields(b: Record, r: Record) {
    b.used == 0 && !KeepsFlag(b) && b.time > r.time
  }

  ghost predicate Shielded(doc: Doc) {
    forall r :: r in Log(doc) && HoldsBlank(doc, r) ==> exists b :: b in Log(doc) && Shields(b, r)
  }

  ghost predicate Guarded(doc: Doc) {
    !Blank(doc.content) && (forall tag :: tag in doc.checkpoints ==> !Blank(doc.checkpoints[tag])) &&
    WellLogged(doc) && Shielded(doc)
  }

  /** UNDO never gets past a shield. */
  lemma UndoGuarded(doc: Doc)
    requires Guarded(doc)
    ensures Undo(doc).Some? ==> Guarded(Undo(doc).value)
  {
    hide Blank, SortNewest, LoadLog, SaveLog, RecordOk, KeepsFlag;
    if Undo(doc).Some? {
      var s := SortNewest(Log(doc));
      var i := FirstUnused(s);
      SortNewestSorts(Log(doc));
      SameMembers(s, Log(doc));
      UndoLogAfter(doc);
      var doc' := Undo(doc).value;
      assert s[i] in Log(doc);
      forall b | b in Log(doc) && b.used == 0
        ensures b.time <= s[i].time
      {
        var j :| 0 <= j < |s| && s[j] == b;
        assert j >= i;
      }
      GuardedAfterUndo(doc, doc', s, i);
    }
  }

  lemma GuardedAfterUndo(doc: Doc, doc': Doc, s: seq<Record>, i: nat)
    requires Guarded(doc) && i < |s| && (forall r :: r in s <==> r in Log(doc)) && s[i].used == 0
    requires Log(doc') == (if KeepsFlag(s[i]) then s[i := s[i].(used := 1)] else s) && EndsLine(doc'.undo)
    requires doc'.backups == doc.backups && doc'.checkpoints == doc.checkpoints && !Blank(doc'.content)
    ensures Guarded(doc')
  {
    hide Blank, LoadLog, RecordOk, KeepsFlag;
    UsedStaysOk(s[i]);
    var t := Log(doc');
    assert forall k | 0 <= k < |t| :: t[k] == s[k] || (k == i && KeepsFlag(s[i]) && t[k] == s[i].(used := 1));
    forall r | r in t
      ensures RecordOk(r) && (!KeepsFlag(r) ==> r.used == 0)
      ensures HoldsBlank(doc', r) ==> exists b :: b in t && Shields(b, r)
    {
      var k :| 0 <= k < |t| && t[k] == r;
      assert s[k] in s && s[i] in s;
      FlagOfUser(s[i]);
      if HoldsBlank(doc', r) {
        assert r in Log(doc) && HoldsBlank(doc, r);
        var b :| b in Log(doc) && Shields(b, r);
        var j :| 0 <= j < |s| && s[j] == b;
        assert t[j] == b;
      }
    }
  }

  lemma FlagOfUser(r: Record)
    ensures KeepsFlag(r.(used := 1)) == KeepsFlag(r)
  {
  }

  /** File names that leave room for a time in the names of backups. */
  predicate NameFits(file: string) {
    |file| + 25 <= NAME_FIELD && '|' !in file && '\n' !in file
  }

  lemma NameOfBackup(file: string, time: int)
    requires NameFits(file) && Is64Bit(time)
    ensures NameOk(BackupName(file, time))
  {
    hide Show;
    ShowLength(time);
  }

  /** A backup of a content that is not blank adds nothing that needs a shield. */
  lemma RewriteGuarded(doc: Doc, file: string, time: int, user: string, content: string)
    requires Guarded(doc) && !Blank(content) && NameFits(file) && Is64Bit(time) && Accepted(user)
    ensures Guarded(Rewrite(doc, file, time, user, content))
  {
    hide Blank, LoadLog, BackupName, BackupLine, Stored, FlagIn, RecordOk, KeepsFlag, Keeps, Listed, Accepted, NameFits;
    NameOfBackup(file, time);
    var doc' := Rewrite(doc, file, time, user, content);
    var r := NewRecord(file, time, user);
    LogGrows(doc, file, time, user);
    assert forall x :: x in Log(doc') ==> x in Log(doc) || (x == r && Listed(user));
    assert forall x :: x in Log(doc) ==> x in Log(doc');
    forall x | x in Log(doc') && HoldsBlank(doc', x)
      ensures exists b :: b in Log(doc') && Shields(b, x)
    {
      assert x.name != BackupName(file, time);
      assert x in Log(doc) && HoldsBlank(doc, x);
      var b :| b in Log(doc) && Shields(b, x);
      assert b in Log(doc');
    }
  }

  /** A backup's record is appended to the log, unless the log is full. */
  lemma LogGrows(doc: Doc, file: string, time: int, user: string)
    requires (doc.undo == "" || EndsLine(doc.undo)) && NameOk(BackupName(file, time)) && Is64Bit(time) && Accepted(user)
    ensures var r, log := NewRecord(file, time, user), Log(Backup(doc, file, time, user));
      (log == Log(doc) || (Listed(user) && log == Log(doc) + [r])) && EndsLine(Backup(doc, file, time, user).undo) &&
      (Listed(user) ==> RecordOk(r) && (!KeepsFlag(r) ==> r.used == 0))
  {
    hide LoadLog, BackupName, BackupLine, Stored, FlagIn, RecordOk, KeepsFlag, Keeps, Listed, Accepted, NameOk;
    if |Log(doc)| < MAX_RECORDS {
      BackupLog(doc, file, time, user);
      assert Log(doc) + [] == Log(doc);
    } else {
      var line := BackupLine(time, BackupName(file, time), user);
      LoadOfFull(doc.undo, line, MAX_RECORDS);
      ParseBackupLine(time, BackupName(file, time), user);
      assert (doc.undo + line)[|doc.undo + line| - 1] == line[|line| - 1];
      if Listed(user) {
        NewRecordOk(file, time, user);
      }
    }
  }

  // ---- Runs ------------------------------------------------------------------------------------------

  /** User names as the handshake takes them, and times as the clock gives them. */
  predicate EventFits(e: Event) {
    match e
    case Connect(_, user) => Accepted(user)
    case Etirw(_, time) => Is64Bit(time)
    case RevertFile(_, _, _, time) => Is64Bit(time)
    case _ => true
  }

  predicate EventsFit(events: seq<Event>) {
    forall k | 0 <= k < |events| :: EventFits(events[k])
  }

  predicate UsersFit(st: State) {
    forall fd :: fd in st.users ==> Accepted(st.users[fd])
  }

  ghost predicate AllGuarded(docs: map<string, Doc>) {
    forall file :: file in docs ==> Guarded(docs[file]) && NameFits(file)
  }

  lemma GuardedStep(doc: Doc, doc': Doc, st: State, e: Event, file: string)
    requires Guarded(doc) && NameFits(file) && UsersFit(st) && EventFits(e) && Changed(doc, doc', st, e, file)
    ensures Guarded(doc')
  {
    hide Blank, Rewrite, Undo, NameFits, Accepted, LoadLog, RecordOk;
    UndoGuarded(doc);
    if doc' == doc {
    } else if e.CheckpointFile? {
      CheckpointGuarded(doc, e.tag);
    } else if e.Etirw? {
      RewriteGuarded(doc, file, e.time, st.users[e.fd], doc'.content);
    } else if e.RevertFile? {
      RewriteGuarded(doc, file, e.time, st.users[e.fd], doc.checkpoints[e.tag]);
    }
  }

  lemma CheckpointGuarded(doc: Doc, tag: string)
    requires Guarded(doc)
    ensures Checkpoint(doc, tag).Some? ==> Guarded(Checkpoint(doc, tag).value)
  {
    hide Blank, LoadLog, RecordOk, KeepsFlag;
    var r := Checkpoint(doc, tag);
    if r.Some? {
      assert Log(r.value) == Log(doc);
      assert forall x :: HoldsBlank(r.value, x) == HoldsBlank(doc, x);
    }
  }

  lemma GuardedIsFull(docs: map<string, Doc>)
    requires AllGuarded(docs)
    ensures AllFull(docs)
  {
  }

  lemma UsersStayFit(st: State, e: Event)
    requires UsersFit(st) && EventFits(e)
    ensures UsersFit(Step(st, e))
  {
    hide Accepted, Apply, CommitDoc, Undo, Checkpoint, Revert, Available;
  }

  /** Where every blank backup is out of reach of UNDO, no run reaches a blank document. */
  lemma {:induction false} GuardedNeverBlank(docs: map<string, Doc>, events: seq<Event>)
    requires AllGuarded(docs) && EventsFit(events)
    ensures NeverBlank(docs, events) && AllGuarded(Run(docs, events).st.docs) && UsersFit(Run(docs, events).st)
  {
    hide Follow, Step, Guarded, Inv, Changed, NameFits, EventFits;
    if events == [] {
      GuardedIsFull(docs);
      assert events[..0] == [];
    } else {
      var before, e := events[..|events| - 1], events[|events| - 1];
      GuardedNeverBlank(docs, before);
      RunKeeps(docs, before);
      RunEnds(docs, events);
      var tr, st' := Run(docs, before), Run(docs, events).st;
      UsersStayFit(tr.st, e);
      StepChanges(tr, docs, e, "");
      forall file | file in st'.docs ensures Guarded(st'.docs[file]) && NameFits(file) {
        StepChanges(tr, docs, e, file);
        GuardedStep(tr.st.docs[file], st'.docs[file], tr.st, e, file);
      }
      GuardedIsFull(st'.docs);
      NeverBlankSnoc(docs, events);
    }
  }

  // ---- What UNDO can reach ------------------------------------------------------------------------------

  /** A blank content on the stack that undos can reach: no lost flag lies above it. */
  ghost predicate UndoReachesBlank(stack: seq<Entry>) {
    exists m :: 0 <= m < |stack| && m <= UndoStack.FirstLost(stack) && Blank(stack[m].content)
  }

  lemma ReachesBlankCons(e: Entry, rest: seq<Entry>)
    ensures UndoReachesBlank([e] + rest) <==> Blank(e.content) || (e.kept && UndoReachesBlank(rest))
  {
    hide Blank;
    var stack := [e] + rest;
    assert stack[1..] == rest;
    if e.kept && UndoReachesBlank(rest) {
      var m :| 0 <= m < |rest| && m <= UndoStack.FirstLost(rest) && Blank(rest[m].content);
      assert stack[m + 1] == rest[m];
    }
    if Blank(e.content) {
      assert Blank(stack[0].content);
    }
    if UndoReachesBlank(stack) {
      var m :| 0 <= m < |stack| && m <= UndoStack.FirstLost(stack) && Blank(stack[m].content);
      assert m == 0 || rest[m - 1] == stack[m];
    }
  }

  /** Backups of sorted records: if undos reach no blank one, each of those is shielded. */
  lemma {:induction false} OutOfReach(s: seq<Record>, file: string, backups: map<string, string>, r: Record)
    requires Descending(s) && RecordsFit(s, file, backups) && !UndoReachesBlank(Pending(s, backups))
    requires r in s && r.used == 0 && Blank(backups[r.name])
    ensures exists b :: b in s && Shields(b, r)
  {
    hide Blank, RecordOk, KeepsFlag, BackupName;
    var h, rest := s[0], s[1..];
    assert RecordFits(h, file, backups) by { assert h in s; }
    assert RecordFits(r, file, backups);
    if h.used == 0 {
      ReachesBlankCons(Entry(backups[h.name], KeepsFlag(h)), Pending(rest, backups));
      assert r != h;
    } else {
      assert Pending(s, backups) == Pending(rest, backups);
    }
    assert r in rest;
    var k :| 0 <= k < |rest| && rest[k] == r;
    assert s[k + 1] == r;
    if h.used == 0 && !KeepsFlag(h) {
      assert h.time != r.time;
      assert Shields(h, r);
    } else {
      OutOfReach(rest, file, backups, r);
      var b :| b in rest && Shields(b, r);
      assert b in s;
    }
  }

  /** A fit log whose blank backups undos cannot reach is guarded. */
  lemma UnreachedIsGuarded(doc: Doc, file: string, last: int)
    requires LogFits(doc, file, last) && !Blank(doc.content) && !UndoReachesBlank(Stack(doc))
    requires forall tag :: tag in doc.checkpoints ==> !Blank(doc.checkpoints[tag])
    ensures Guarded(doc)
  {
    hide Blank, SortNewest, LoadLog, RecordOk, KeepsFlag, Pending;
    var s := SortNewest(Log(doc));
    SortNewestSorts(Log(doc));
    SameMembers(s, Log(doc));
    forall r | r in Log(doc) && HoldsBlank(doc, r)
      ensures exists b :: b in Log(doc) && Shields(b, r)
    {
      OutOfReach(s, file, doc.backups, r);
    }
  }

  /** Undos alone bring back what they reach. */
  lemma {:induction false} UndosFollow(doc: Doc, file: string, k: nat, last: int)
    requires LogFits(doc, file, last)
    ensures UndoStack.Play(doc, file, UndoStack.TakeBacks(k)).content ==
            UndoStack.PlayStack(doc.content, Stack(doc), UndoStack.TakeBacks(k)).0
    decreases k
  {
    hide Undo, Stack, LogFits;
    if k > 0 {
      assert UndoStack.TakeBacks(k)[1..] == UndoStack.TakeBacks(k - 1);
      UndoPopsOrPeeks(doc, file, last);
      UndosFollow(if Undo(doc).Some? then Undo(doc).value else doc, file, k - 1, last);
    }
  }

  lemma UndosBlank(doc: Doc, file: string, last: int) returns (k: nat)
    requires LogFits(doc, file, last) && UndoReachesBlank(Stack(doc))
    ensures Blank(UndoStack.Play(doc, file, UndoStack.TakeBacks(k)).content)
  {
    hide Blank, Stack, LogFits, UndoStack.Play, UndoStack.PlayStack;
    var stack := Stack(doc);
    var m: nat :| m < |stack| && m <= UndoStack.FirstLost(stack) && Blank(stack[m].content);
    k := m + 1;
    UndosFollow(doc, file, k, last);
    UndoStack.UndosGoDown(doc.content, stack, k);
  }
}
