/** The request handlers of a direct connection: a heap lock list, files and drafts updated
    in place, each handler proved to be one step of the protocol. */
module EditingServer {
  import opened Text
  import opened Sentences
  import opened Editing
  import opened Editor
  import opened UndoLog
  import opened Documents
  import opened UndoStack
  import opened LockList
  import opened StorageServer

  class Server {
    var docs: map<string, Doc>
    const locks: List
    var drafts: map<Lock, string>
    var users: map<int, string>
    var seen: set<int>

    ghost predicate Valid()
      reads this, locks, locks.nodes
    {
      locks.Valid()
    }

    ghost function Abstract(): State
      reads this, locks
    {
      State(docs, locks.locks, drafts, users, seen)
    }

    constructor (docs: map<string, Doc>)
      ensures Valid() && Abstract() == Start(docs)
    {
      this.docs, drafts, users, seen := docs, map[], map[], {};
      locks := new List();
    }

    method Connect(fd: int, user: string)
      requires Valid()
      modifies this
      ensures Valid() && Abstract() == Step(old(Abstract()), Event.Connect(fd, user))
    {
      if fd !in seen {
        users, seen := users[fd := user], seen + {fd};
      }
    }

    /** WRITE: completeness test, lock test, lock insert. */
    method Write(fd: int, file: string, sentence: int) returns (accepted: bool)
      requires Valid() && (file in docs ==> Fits(docs[file].content))
      modifies this, locks
      ensures Valid() && Abstract() == Step(old(Abstract()), Event.Write(fd, file, sentence))
      ensures accepted <==> old(WriteAdmitted(Abstract(), fd, file, sentence))
    {
      accepted := false;
      var mode := locks.WriteInfo(fd);
      if fd !in users || mode.Some? || file !in docs {
        return;
      }
      var available := AvailableSentences(docs[file].content);
      if sentence < 1 || sentence > available {
        return;
      }
      var held := locks.IsSentenceLocked(file, sentence, fd);
      if !held {
        locks.Add(file, sentence, fd);
        accepted := true;
      }
    }

    /** A line in write mode: the draft, or the live file before the first accepted line. */
    method Type(fd: int, line: Line)
      requires Valid() && ShortWords(Tokens(line.text, LINE_SEPS))
      requires forall file :: file in docs ==> Fits(docs[file].content)
      requires forall l :: l in drafts ==> Fits(drafts[l])
      modifies this
      ensures Valid() && Abstract() == Step(old(Abstract()), Event.Type(fd, line))
    {
      hide Insert, Fits, ValidText, Merge;
      var mode := locks.WriteInfo(fd);
      if fd !in users || mode.None? {
        return;
      }
      var lock := mode.value;
      if lock.file !in docs || lock.sentence < 1 {
        return;
      }
      ghost var before := DraftOf(Abstract(), lock);
      if lock in drafts {
        DraftUnchanged(Abstract(), lock);
      }
      if 1 <= line.index && ValidText(line.text) {
        var current := if lock in drafts then drafts[lock] else docs[lock.file].content;
        var r := InsertLine(current, lock.sentence, line.index, line.text);
        if r.Some? {
          drafts := drafts[lock := r.value];
        }
      }
      assert DraftOf(Abstract(), lock) == Apply(docs[lock.file].content, lock.sentence, before, line);
    }

    /** The backup, then the merge of the draft into the live content. */
    method CommitDraft(doc: Doc, lock: Lock, draft: string, time: int, user: string) returns (r: Doc)
      requires 1 <= lock.sentence && Fits(doc.content) && Fits(draft)
      ensures r == CommitDoc(doc, lock, draft, time, user)
    {
      hide Merge, Fits, BackupName, Tokens, Backup;
      r := Backup(doc, lock.file, time, user);
      BackupContent(doc, lock.file, time, user);
      var final := MergeSentence(r.content, lock.sentence, draft);
      r := r.(content := final);
    }

    /** ETIRW: back up, merge into the latest file, drop the draft, release the lock. */
    method Etirw(fd: int, time: int)
      requires Valid()
      requires forall file :: file in docs ==> Fits(docs[file].content)
      requires forall l :: l in drafts ==> Fits(drafts[l])
      modifies this, locks, locks.nodes
      ensures Valid() && Abstract() == Step(old(Abstract()), Event.Etirw(fd, time))
    {
      hide Fits, CommitDoc, RemoveFirst, LockOf, Undo, Checkpoint, Revert, Apply, WithoutClient, locks.Valid;
      var mode := locks.WriteInfo(fd);
      if fd !in users || mode.None? {
        return;
      }
      var lock := mode.value;
      if lock in drafts && lock.file in docs && lock.sentence >= 1 {
        var doc := CommitDraft(docs[lock.file], lock, drafts[lock], time, users[fd]);
        docs := docs[lock.file := doc];
        drafts := drafts - {lock};
      }
      locks.Remove(lock.file, lock.sentence, lock.fd);
    }

    method IsQuiet(fd: int, file: string) returns (quiet: bool)
      requires Valid()
      ensures quiet <==> Quiet(Abstract(), fd, file)
    {
      var mode := locks.WriteInfo(fd);
      var held := locks.IsFileLocked(file);
      quiet := fd in users && mode.None? && !held && file in docs;
    }

    method UndoFile(fd: int, file: string)
      requires Valid()
      modifies this
      ensures Valid() && Abstract() == Step(old(Abstract()), Event.UndoFile(fd, file))
    {
      hide Undo, locks.Valid, LockOf, Available;
      var quiet := IsQuiet(fd, file);
      if quiet {
        var r := PerformUndo(docs[file]);
        if r.Some? {
          docs := docs[file := r.value];
        }
      }
    }

    method CheckpointFile(fd: int, file: string, tag: string)
      requires Valid()
      modifies this
      ensures Valid() && Abstract() == Step(old(Abstract()), Event.CheckpointFile(fd, file, tag))
    {
      hide Undo, locks.Valid, LockOf, Available;
      var quiet := IsQuiet(fd, file);
      if quiet && tag !in docs[file].checkpoints {
        var doc := docs[file];
        docs := docs[file := doc.(checkpoints := doc.checkpoints[tag := doc.content])];
      }
    }

    method RevertFile(fd: int, file: string, tag: string, time: int)
      requires Valid()
      modifies this
      ensures Valid() && Abstract() == Step(old(Abstract()), Event.RevertFile(fd, file, tag, time))
    {
      hide Undo, locks.Valid, LockOf, Available;
      var quiet := IsQuiet(fd, file);
      if quiet && tag in docs[file].checkpoints {
        var content := docs[file].checkpoints[tag];
        var doc := Backup(docs[file], file, time, users[fd]);
        docs := docs[file := doc.(content := content)];
      }
    }

    method Disconnect(fd: int)
      requires Valid()
      modifies this, locks, locks.nodes
      ensures Valid() && Abstract() == Step(old(Abstract()), Event.Disconnect(fd))
    {
      locks.RemoveClient(fd);
      users := users - {fd};
    }
  }

  lemma BackupContent(doc: Doc, file: string, time: int, user: string)
    ensures Backup(doc, file, time, user).content == doc.content
  {
  }

  lemma DraftUnchanged(st: State, lock: Lock)
    requires lock in st.drafts
    ensures st.drafts[lock := st.drafts[lock]] == st.drafts
  {
  }
}
