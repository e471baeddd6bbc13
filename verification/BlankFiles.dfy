/** The one kind of file on which concurrent sessions lose an update: separators only.
    WRITE accepts sentences 1 and 2 of it at the same time although it has neither. */
module BlankFiles {
  import opened Text
  import opened Sentences
  import opened Editing
  import opened Editor
  import opened Documents
  import opened LockList
  import opened StorageServer
  import opened UndoLog
  import opened Traces
  import opened Serializability
  import opened SerialRun
  import opened Histories
  import UndoStack

  lemma OneWord(w: string)
    requires IsToken(w, SPACES)
    ensures IsToken(w, EDITOR_SEPS) && ValidText(w)
    ensures Tokens(w, EDITOR_SEPS) == [w] && Tokens(w, LINE_SEPS) == [w] && SentencesOf(w) == [[w]]
  {
    TokensOfToken(w, EDITOR_SEPS);
    TokensOfToken(w, LINE_SEPS);
    ParseSentence([w]);
  }

  /** The first line of a session on a blank file. */
  lemma FirstLine(live: string, n: int, w: string)
    requires Blank(live) && 1 <= n && IsToken(w, EDITOR_SEPS) && ValidText(w) && Tokens(w, EDITOR_SEPS) == [w] && SentencesOf(w) == [[w]]
    ensures Typed(live, n, [Line(1, w)]) == Some(live + " " + w)
    ensures SentencesOf(live + " " + w) == [[w]]
  {
    assert SentencesOf(live) == [];
    TypedOne(live, n, Line(1, w));
    TokensAcrossSeparator(live, ' ', w, EDITOR_SEPS);
    assert Tokens(live, EDITOR_SEPS) + [w] == [w];
  }

  /** Sentence 2 committed first, then sentence 1: the second commit overwrites the first,
      whereas the second session on its own would have kept both words. */
  lemma BlankFileLosesUpdate(live: string, a: string, b: string)
    requires Blank(live) && Plain(a) && Plain(b)
    ensures Typed(live, 1, [Line(1, a)]) == Some(live + " " + a)
    ensures var b', first := b + ".", live + " " + (b + ".");
      ValidText(a) && ValidText(b') &&
      SessionAlone(live, 2, [Line(1, b')]) == first &&
      Typed(live, 2, [Line(1, b')]) == Some(first) &&
      Merge(live, 2, first) == first &&
      Merge(first, 1, live + " " + a) == a &&
      Typed(first, 1, [Line(1, a)]).Some? &&
      SessionAlone(first, 1, [Line(1, a)]) == a + " " + b'
  {
    var b' := b + ".";
    var first := live + " " + b';
    assert IsToken(b', SPACES);
    OneWord(a);
    OneWord(b');
    FirstLine(live, 1, a);
    FirstLine(live, 2, b');
    OverwritingMerge(first, a, live + " " + a, b');
    KeepingSession(first, a, b);
  }

  lemma OverwritingMerge(first: string, a: string, draft: string, b': string)
    requires SentencesOf(first) == [[b']] && SentencesOf(draft) == [[a]]
    ensures Merge(first, 1, draft) == a
  {
    SpliceOnly([b'], [a]);
    FlatCons([a], []);
    assert Flat([[a]]) == [a];
  }

  lemma KeepingSession(first: string, a: string, b: string)
    requires Plain(a) && Plain(b) && SentencesOf(first) == [[b + "."]]
    requires ValidText(a) && Tokens(a, LINE_SEPS) == [a]
    ensures Typed(first, 1, [Line(1, a)]) == Some(a + " " + (b + "."))
    ensures SessionAlone(first, 1, [Line(1, a)]) == a + " " + (b + ".")
  {
    hide Tokens, Edited;
    var b' := b + ".";
    var g, e := [b'], [a, b'];
    EditedFirst(a, b);
    SpliceOnly(g, e);
    EmptyAround(e);
    NothingParsed();
    assert e[1..] == [b'] && Join(e) == a + " " + b';
    assert Insert(first, 1, 1, a) == Some(Join(e));
    TypedOne(first, 1, Line(1, a));
    FlatCons(e, []);
    SampleSentences(e, [e], Join(e));
    assert Flat([e]) == e;
    assert Merge(first, 1, Join(e)) == Join(e);
  }

  /** A word typed before the only one of a finished sentence. */
  lemma EditedFirst(a: string, b: string)
    requires Plain(b)
    ensures |Body([b + "."])| == 1 && Edited([b + "."], 1, [a]) == [a, b + "."]
  {
    var b' := b + ".";
    var g := [b'];
    assert b'[..|b'| - 1] == b && g[..0] == [];
    assert Body(g) == [b];
    assert [b][..0] + [a] + [b][0..] == [a, b] && [a, b][..1] == [a];
  }

  // ---- A whole run ------------------------------------------------------------------------------

  lemma RunSnoc(docs: map<string, Doc>, events: seq<Event>, e: Event)
    ensures Run(docs, events + [e]) == Follow(Run(docs, events), e)
  {
    hide Follow;
    assert (events + [e])[..|events|] == events;
  }

  /** Two connected clients, `n` and `n + 1`, the only ones. */
  ghost function Pair(n: int, seen: set<int>, docs: map<string, Doc>, locks: seq<Lock>, drafts: map<Lock, string>,
                      typed: map<int, seq<Line>>, log: seq<Action>): Trace {
    Trace(State(docs, locks, drafts, map[n := "u", n + 1 := "v"], seen), typed, log)
  }

  lemma TwoConnect(tr: Trace, n: int)
    requires Idle(tr.st, n)
    ensures Follow(Follow(tr, Connect(n, "u")), Connect(n + 1, "v")) ==
            Pair(n, tr.st.seen + {n} + {n + 1}, tr.st.docs, [], map[], tr.typed, tr.log)
  {
    assert map[][n := "u"][n + 1 := "v"] == map[n := "u", n + 1 := "v"];
  }

  lemma WriteBoth(n: int, seen: set<int>, docs: map<string, Doc>, file: string, t: map<int, seq<Line>>, log: seq<Action>)
    requires file in docs && Available(docs[file].content) == 2
    ensures var one, two := Lock(file, 1, n), Lock(file, 2, n + 1);
      Follow(Pair(n, seen, docs, [], map[], t, log), Write(n, file, 1)) ==
        Pair(n, seen, docs, [one], map[], t[n := []], log) &&
      Follow(Pair(n, seen, docs, [one], map[], t[n := []], log), Write(n + 1, file, 2)) ==
        Pair(n, seen, docs, [two, one], map[], t[n := []][n + 1 := []], log)
  {
    hide Available;
    var one, two := Lock(file, 1, n), Lock(file, 2, n + 1);
    assert [one] + [] == [one];
    assert LockOf([one], n + 1) == None;
    assert [two] + [one] == [two, one];
  }

  lemma BlankAvailable(content: string)
    requires Blank(content)
    ensures Available(content) == 2
  {
  }

  lemma TypeBoth(n: int, seen: set<int>, docs: map<string, Doc>, file: string, t: map<int, seq<Line>>, log: seq<Action>,
      x: Line, y: Line, d: string, d': string)
    requires file in docs && n in t && n + 1 in t && t[n] == [] && t[n + 1] == []
    requires Apply(docs[file].content, 1, None, x) == Some(d) && Apply(docs[file].content, 2, None, y) == Some(d')
    ensures var one, two := Lock(file, 1, n), Lock(file, 2, n + 1);
      Follow(Pair(n, seen, docs, [two, one], map[], t, log), Type(n, x)) ==
        Pair(n, seen, docs, [two, one], map[one := d], t[n := [x]], log) &&
      Follow(Pair(n, seen, docs, [two, one], map[one := d], t[n := [x]], log), Type(n + 1, y)) ==
        Pair(n, seen, docs, [two, one], map[one := d, two := d'], t[n := [x]][n + 1 := [y]], log)
  {
    hide Apply;
    var one, two := Lock(file, 1, n), Lock(file, 2, n + 1);
    assert LockOf([two, one], n + 1) == Some(two);
    assert [two, one][1..] == [one] && LockOf([one], n) == Some(one) && LockOf([two, one], n) == Some(one);
    assert [] + [x] == [x] && [] + [y] == [y];
  }

  lemma CommitBoth(n: int, seen: set<int>, docs: map<string, Doc>, file: string, t: map<int, seq<Line>>, log: seq<Action>,
      x: Line, y: Line, d: string, d': string)
    requires file in docs && n in t && n + 1 in t && t[n] == [x] && t[n + 1] == [y]
    ensures var one, two := Lock(file, 1, n), Lock(file, 2, n + 1);
      var docs' := docs[file := CommitDoc(docs[file], two, d', 1, "v")];
      var docs'' := docs'[file := CommitDoc(docs'[file], one, d, 2, "u")];
      var s2, s1 := Session(file, 2, [y], 1, "v"), Session(file, 1, [x], 2, "u");
      Follow(Pair(n, seen, docs, [two, one], map[one := d, two := d'], t, log), Etirw(n + 1, 1)) ==
        Pair(n, seen, docs', [one], map[one := d], t, log + [s2]) &&
      Follow(Pair(n, seen, docs', [one], map[one := d], t, log + [s2]), Etirw(n, 2)) ==
        Pair(n, seen, docs'', [], map[], t, log + [s2] + [s1])
  {
    hide CommitDoc;
    var one, two := Lock(file, 1, n), Lock(file, 2, n + 1);
    assert LockOf([two, one], n + 1) == Some(two) && LockOf([one], n) == Some(one);
    assert RemoveFirst([two, one], two) == [one] && RemoveFirst([one], one) == [];
    assert map[one := d, two := d'] - {two} == map[one := d] && map[one := d] - {one} == map[];
  }

  lemma CommittedContents(docs: map<string, Doc>, file: string, n: int, d: string, d': string)
    requires file in docs && Merge(docs[file].content, 2, d') == d' && Merge(d', 1, d) == "a"
    ensures var doc' := CommitDoc(docs[file], Lock(file, 2, n + 1), d', 1, "v");
      doc'.content == d' && CommitDoc(doc', Lock(file, 1, n), d, 2, "u").content == "a"
  {
    hide Merge;
  }

  lemma SerialOfTwo(docs: map<string, Doc>, log: seq<Action>, file: string, x: Line, y: Line, first: string, second: string)
    requires var now := Serial(docs, log);
      file in now && Typed(now[file].content, 2, [y]).Some? && SessionAlone(now[file].content, 2, [y]) == first
    requires Typed(first, 1, [x]).Some? && SessionAlone(first, 1, [x]) == second
    ensures var log' := log + [Session(file, 2, [y], 1, "v")] + [Session(file, 1, [x], 2, "u")];
      file in Serial(docs, log') && Serial(docs, log')[file].content == second
  {
    hide Typed, SessionAlone, Serial, Admitted, AllFull;
    var s2, s1 := Session(file, 2, [y], 1, "v"), Session(file, 1, [x], 2, "u");
    SerialSnoc(docs, log, s2);
    SerialSnoc(docs, log + [s2], s1);
  }

  /** The clients `n` and `n + 1` edit sentences 1 and 2 at the same time. */
  function Race(n: int, file: string, x: Line, y: Line): seq<Event> {
    [Connect(n, "u")] + [Connect(n + 1, "v")] + [Write(n, file, 1)] + [Write(n + 1, file, 2)] +
    [Type(n, x)] + [Type(n + 1, y)] + [Etirw(n + 1, 1)] + [Etirw(n, 2)]
  }

  lemma EightSteps(docs: map<string, Doc>, before: seq<Event>, n: int, file: string, x: Line, y: Line)
    ensures var t := Run(docs, before);
      Run(docs, before + Race(n, file, x, y)) ==
      Follow(Follow(Follow(Follow(Follow(Follow(Follow(Follow(t, Connect(n, "u")), Connect(n + 1, "v")),
        Write(n, file, 1)), Write(n + 1, file, 2)), Type(n, x)), Type(n + 1, y)), Etirw(n + 1, 1)), Etirw(n, 2))
  {
    hide Follow, Run;
    var e := before;
    var all := e + [Connect(n, "u")] + [Connect(n + 1, "v")] + [Write(n, file, 1)] + [Write(n + 1, file, 2)] +
      [Type(n, x)] + [Type(n + 1, y)] + [Etirw(n + 1, 1)] + [Etirw(n, 2)];
    assert before + Race(n, file, x, y) == all;
    RunSnoc(docs, e, Connect(n, "u"));
    e := e + [Connect(n, "u")];
    RunSnoc(docs, e, Connect(n + 1, "v"));
    e := e + [Connect(n + 1, "v")];
    RunSnoc(docs, e, Write(n, file, 1));
    e := e + [Write(n, file, 1)];
    RunSnoc(docs, e, Write(n + 1, file, 2));
    e := e + [Write(n + 1, file, 2)];
    RunSnoc(docs, e, Type(n, x));
    e := e + [Type(n, x)];
    RunSnoc(docs, e, Type(n + 1, y));
    e := e + [Type(n + 1, y)];
    RunSnoc(docs, e, Etirw(n + 1, 1));
    e := e + [Etirw(n + 1, 1)];
    RunSnoc(docs, e, Etirw(n, 2));
  }

  /** Once nobody is connected and a file is blank, there is a way to go on that no serial
      execution explains. */
  lemma BlankFileNotSerializable(docs: map<string, Doc>, before: seq<Event>, n: int, file: string) returns (events: seq<Event>)
    requires var tr := Run(docs, before);
      Idle(tr.st, n) && file in tr.st.docs && Blank(tr.st.docs[file].content) && tr.st.docs == Serial(docs, tr.log)
    ensures Run(docs, events).st.docs != Serial(docs, Run(docs, events).log)
    ensures EventsFit(before) ==> EventsFit(events)
  {
    hide Follow, Blank, Perform, Typed, Apply, Merge, SessionAlone, Run, Serial, Idle, CommitDoc;
    var tr := Run(docs, before);
    var now := tr.st.docs;
    var live, x, y := now[file].content, Line(1, "a"), Line(1, "b" + ".");
    var d, d' := live + " " + "a", live + " " + ("b" + ".");
    events := before + Race(n, file, x, y);
    RaceFits(before, n, file, x, y);
    assert Plain("a") && Plain("b");
    BlankFileLosesUpdate(live, "a", "b");
    TypedOne(live, 1, x);
    TypedOne(live, 2, y);
    BlankAvailable(live);
    EightSteps(docs, before, n, file, x, y);
    TwoConnect(tr, n);
    var seen := tr.st.seen + {n} + {n + 1};
    WriteBoth(n, seen, now, file, tr.typed, tr.log);
    var t := tr.typed[n := []][n + 1 := []];
    TypeBoth(n, seen, now, file, t, tr.log, x, y, d, d');
    CommitBoth(n, seen, now, file, t[n := [x]][n + 1 := [y]], tr.log, x, y, d, d');
    var s2, s1 := Session(file, 2, [y], 1, "v"), Session(file, 1, [x], 2, "u");
    assert Run(docs, events).log == tr.log + [s2] + [s1];
    CommittedContents(now, file, n, d, d');
    assert Run(docs, events).st.docs[file].content == "a";
    SerialOfTwo(docs, tr.log, file, x, y, d', "a" + " " + ("b" + "."));
    assert |"a"| != |"a" + " " + ("b" + ".")|;
  }

  lemma RaceFits(before: seq<Event>, n: int, file: string, x: Line, y: Line)
    ensures EventsFit(before) ==> EventsFit(before + Race(n, file, x, y))
  {
    assert Accepted("u") && Accepted("v");
    var race := Race(n, file, x, y);
    assert forall k | 0 <= k < |race| :: EventFits(race[k]);
  }

  // ---- Ways to a blank file ---------------------------------------------------------------------

  function Undos(fd: int, file: string, k: nat): seq<Event> {
    if k == 0 then [] else Undos(fd, file, k - 1) + [UndoFile(fd, file)]
  }

  /** One client, alone and with no lock, whose commands so far are all the server did. */
  ghost predicate Only(docs: map<string, Doc>, tr: Trace, n: int) {
    tr.st.locks == [] && tr.st.drafts == map[] && tr.st.users == map[n := "u"] && (forall fd :: fd in tr.st.seen ==> fd <= n) &&
    tr.st.docs == Serial(docs, tr.log)
  }

  lemma OnlyConnected(docs: map<string, Doc>)
    ensures var tr := Run(docs, [] + [Connect(0, "u")]); Only(docs, tr, 0) && tr.st.docs == docs
  {
    RunSnoc(docs, [], Connect(0, "u"));
  }

  /** A command of the only client is one action. */
  lemma OnlyCommands(docs: map<string, Doc>, tr: Trace, n: int, e: Event, file: string)
    requires Only(docs, tr, n) && file in tr.st.docs
    requires e == UndoFile(n, file) || (e.RevertFile? && e.fd == n && e.file == file)
    ensures var tr' := Follow(tr, e); var doc := tr.st.docs[file];
      Only(docs, tr', n) && tr'.st.docs == UpdatedDocs(tr.st.docs, file,
        if e.UndoFile? then Undo(doc) else Revert(doc, file, e.tag, e.time, "u"))
  {
    hide Undo, Revert, Serial, Admitted, AllFull;
    assert Quiet(tr.st, n, file);
    var a := if e.UndoFile? then UndoOf(file) else RevertOf(file, e.tag, e.time, "u");
    SerialSnoc(docs, tr.log, a);
  }

  lemma OnlyLeaves(docs: map<string, Doc>, events: seq<Event>, n: int)
    requires Only(docs, Run(docs, events), n)
    ensures var tr := Run(docs, events + [Disconnect(n)]);
      Idle(tr.st, n + 1) && tr.st.docs == Run(docs, events).st.docs && tr.st.docs == Serial(docs, tr.log)
  {
    hide Serial, Run;
    RunSnoc(docs, events, Disconnect(n));
  }

  lemma {:induction false} OnlyUndos(docs: map<string, Doc>, before: seq<Event>, n: int, file: string, k: nat)
    requires Only(docs, Run(docs, before), n) && file in Run(docs, before).st.docs && EventsFit(before)
    ensures var tr, tr' := Run(docs, before), Run(docs, before + Undos(n, file, k));
      Only(docs, tr', n) && file in tr'.st.docs && EventsFit(before + Undos(n, file, k)) &&
      tr'.st.docs[file] == UndoStack.Play(tr.st.docs[file], file, UndoStack.TakeBacks(k))
  {
    hide Only, Run, Undo, Follow, UndoStack.Play;
    if k == 0 {
      assert before + Undos(n, file, 0) == before;
      NothingPlayed(Run(docs, before).st.docs[file], file);
    } else {
      OnlyUndos(docs, before, n, file, k - 1);
      var events := before + Undos(n, file, k - 1);
      assert before + Undos(n, file, k) == events + [UndoFile(n, file)];
      RunSnoc(docs, events, UndoFile(n, file));
      OnlyCommands(docs, Run(docs, events), n, UndoFile(n, file), file);
      UndoStack.TakeBacksSnoc(k - 1);
      PlayOneMore(Run(docs, before).st.docs[file], file, k - 1);
    }
  }

  lemma NothingPlayed(doc: Doc, file: string)
    ensures UndoStack.Play(doc, file, UndoStack.TakeBacks(0)) == doc
  {
  }

  lemma {:induction false} PlayOneMore(doc: Doc, file: string, k: nat)
    ensures var doc' := UndoStack.Play(doc, file, UndoStack.TakeBacks(k));
      UndoStack.Play(doc, file, UndoStack.TakeBacks(k + 1)) == if Undo(doc').Some? then Undo(doc').value else doc'
    decreases k
  {
    hide Undo;
    assert UndoStack.TakeBacks(k + 1)[1..] == UndoStack.TakeBacks(k);
    if k > 0 {
      assert UndoStack.TakeBacks(k)[1..] == UndoStack.TakeBacks(k - 1);
      PlayOneMore(if Undo(doc).Some? then Undo(doc).value else doc, file, k - 1);
    }
  }

  /** A document from which a client can reach a blank one: it is blank, or has a blank
      checkpoint, or a blank backup that UNDO reaches. */
  ghost predicate CanTurnBlank(doc: Doc) {
    Blank(doc.content) || (exists tag :: tag in doc.checkpoints && Blank(doc.checkpoints[tag])) ||
    UndoReachesBlank(Stack(doc))
  }

  lemma ReachesBlank(docs: map<string, Doc>, file: string, last: int) returns (before: seq<Event>, n: int)
    requires file in docs && LogFits(docs[file], file, last) && CanTurnBlank(docs[file])
    ensures var tr := Run(docs, before);
      Idle(tr.st, n) && file in tr.st.docs && Blank(tr.st.docs[file].content) && tr.st.docs == Serial(docs, tr.log)
    ensures EventsFit(before)
  {
    hide Blank, UndoReachesBlank, Stack, LogFits, Run, Serial, Idle, Only;
    var doc := docs[file];
    if Blank(doc.content) {
      before, n := [], 0;
      NothingDone(docs);
    } else {
      var events := [] + [Connect(0, "u")];
      OnlyConnected(docs);
      assert Accepted("u");
      if tag :| tag in doc.checkpoints && Blank(doc.checkpoints[tag]) {
        var e := RevertFile(0, file, tag, 1);
        OnlyCommands(docs, Run(docs, events), 0, e, file);
        RunSnoc(docs, events, e);
        RevertContent(doc, file, tag, 1, "u");
        events := events + [e];
      } else {
        var k := UndosBlank(doc, file, last);
        OnlyUndos(docs, events, 0, file, k);
        events := events + Undos(0, file, k);
      }
      OnlyLeaves(docs, events, 0);
      before, n := events + [Disconnect(0)], 1;
    }
  }

  lemma NothingDone(docs: map<string, Doc>)
    ensures var tr := Run(docs, []); Idle(tr.st, 0) && tr.st.docs == docs == Serial(docs, tr.log)
  {
  }

  lemma RevertContent(doc: Doc, file: string, tag: string, time: int, user: string)
    requires tag in doc.checkpoints
    ensures Revert(doc, file, tag, time, user).Some? && Revert(doc, file, tag, time, user).value.content == doc.checkpoints[tag]
  {
  }

  /** Which histories the editor serializes: every run on files with well-formed undo logs is
      serializable exactly when no file is blank, has a blank checkpoint, or has a blank
      backup that undos reach, which is one with no lost flag above it. */
  lemma SerializableExactly(docs: map<string, Doc>, last: int)
    requires forall file :: file in docs ==> LogFits(docs[file], file, last) && NameFits(file)
    ensures (forall events :: EventsFit(events) ==> Run(docs, events).st.docs == Serial(docs, Run(docs, events).log))
            <==> (forall file :: file in docs ==> !CanTurnBlank(docs[file]))
  {
    hide Run, Serial, Blank, LogFits, NameFits, EventsFit, UndoReachesBlank, Guarded, Idle;
    if file :| file in docs && CanTurnBlank(docs[file]) {
      var before, n := ReachesBlank(docs, file, last);
      var events := BlankFileNotSerializable(docs, before, n, file);
    } else {
      forall file | file in docs ensures Guarded(docs[file]) {
        UnreachedIsGuarded(docs[file], file, last);
      }
      forall events | EventsFit(events) ensures Run(docs, events).st.docs == Serial(docs, Run(docs, events).log) {
        GuardedNeverBlank(docs, events);
        Serializable(docs, events);
      }
    }
  }
}
