/** A document with its backups, undo log and checkpoints, and the commands that rewrite
    its content from them. */
module Documents {
  import opened Text
  import opened Decimal
  import opened UndoLog

  // ---- The exchange sort, newest record first -------------------------------------------------

  function Exchange(s: seq<Record>, i: nat, j: nat): (t: seq<Record>)
    requires i < j < |s|
    ensures |t| == |s|
  {
    if s[i].time < s[j].time then s[i := s[j]][j := s[i]] else s
  }

  function Pass(s: seq<Record>, i: nat, j: nat): (t: seq<Record>)
    requires i < j
    ensures |t| == |s|
    decreases |s| - j
  {
    if j >= |s| then s else Pass(Exchange(s, i, j), i, j + 1)
  }

  function SortFrom(s: seq<Record>, i: nat): (t: seq<Record>)
    ensures |t| == |s|
    decreases |s| - i
  {
    if i + 1 >= |s| then s else SortFrom(Pass(s, i, i + 1), i + 1)
  }

  function SortNewest(s: seq<Record>): (t: seq<Record>)
    ensures |t| == |s|
  {
    SortFrom(s, 0)
  }

  /** The two nested loops of UNDO, in place. */
  method ExchangeSort(a: array<Record>)
    modifies a
    ensures a[..] == SortNewest(old(a[..]))
  {
    var i := 0;
    while i + 1 < a.Length
      invariant 0 <= i
      invariant SortFrom(a[..], i) == SortNewest(old(a[..]))
    {
      ghost var before := a[..];
      var j := i + 1;
      while j < a.Length
        invariant i < j <= a.Length
        invariant Pass(a[..], i, j) == Pass(before, i, i + 1)
      {
        ghost var was := a[..];
        if a[i].time < a[j].time {
          a[i], a[j] := a[j], a[i];
        }
        assert a[..] == Exchange(was, i, j);
        j := j + 1;
      }
      i := i + 1;
    }
  }

  predicate Descending(s: seq<Record>) {
    forall i, j | 0 <= i < j < |s| :: s[i].time >= s[j].time
  }

  predicate DistinctTimes(s: seq<Record>) {
    forall i, j | 0 <= i < j < |s| :: s[i].time != s[j].time
  }

  /** Same records, as often; and times that differed still differ. */
  ghost predicate Rearranged(s: seq<Record>, t: seq<Record>) {
    multiset(t) == multiset(s) && (DistinctTimes(s) ==> DistinctTimes(t))
  }

  lemma ExchangeRearranges(s: seq<Record>, i: nat, j: nat)
    requires i < j < |s|
    ensures Rearranged(s, Exchange(s, i, j))
  {
    Swapped(s, i, j);
  }

  lemma Swapped<T>(s: seq<T>, i: nat, j: nat)
    requires i < j < |s|
    ensures multiset(s[i := s[j]][j := s[i]]) == multiset(s)
  {
    assert multiset(s[i := s[j]]) == multiset(s) - multiset{s[i]} + multiset{s[j]};
  }

  lemma RearrangedItself(s: seq<Record>)
    ensures Rearranged(s, s)
  {
  }

  lemma RearrangedTwice(s: seq<Record>, t: seq<Record>, u: seq<Record>)
    requires Rearranged(s, t) && Rearranged(t, u)
    ensures Rearranged(s, u)
  {
    hide DistinctTimes;
  }

  ghost predicate InRest(r: Record, s: seq<Record>, i: nat) {
    exists m | i <= m < |s| :: r == s[m]
  }

  lemma ExchangeKeepsFront(s: seq<Record>, i: nat, j: nat)
    requires i < j < |s| && forall k | i < k < j :: s[i].time >= s[k].time
    ensures var t := Exchange(s, i, j); t[..i] == s[..i] && forall k | i < k < j + 1 :: t[i].time >= t[k].time
  {
  }

  /** One pass moves a newest record of the rest to position `i`. */
  lemma {:induction false} PassSelects(s: seq<Record>, i: nat, j: nat)
    requires i < j <= |s| && forall k | i < k < j :: s[i].time >= s[k].time
    ensures var t := Pass(s, i, j);
      Rearranged(s, t) && t[..i] == s[..i] && forall k | i < k < |s| :: t[i].time >= t[k].time
    decreases |s| - j
  {
    hide Rearranged;
    if j < |s| {
      ExchangeRearranges(s, i, j);
      ExchangeKeepsFront(s, i, j);
      var u := Exchange(s, i, j);
      hide Exchange;
      PassSelects(u, i, j + 1);
      RearrangedTwice(s, u, Pass(s, i, j));
    } else {
      RearrangedItself(s);
    }
  }

  lemma {:induction false} PassStays(s: seq<Record>, i: nat, j: nat, k: nat)
    requires i < j && i <= k < |s|
    ensures InRest(Pass(s, i, j)[k], s, i)
    decreases |s| - j
  {
    if j >= |s| {
      assert s[k] == Pass(s, i, j)[k];
    } else {
      var u := Exchange(s, i, j);
      PassStays(u, i, j + 1, k);
      var m :| i <= m < |s| && Pass(s, i, j)[k] == u[m];
      assert u[m] == s[if u == s then m else if m == i then j else if m == j then i else m];
    }
  }

  predicate SortedUpTo(s: seq<Record>, i: nat) {
    forall p, q | 0 <= p < q < |s| && p < i :: s[p].time >= s[q].time
  }

  lemma PassSorts(s: seq<Record>, i: nat)
    requires i < |s| && SortedUpTo(s, i)
    ensures Rearranged(s, Pass(s, i, i + 1)) && SortedUpTo(Pass(s, i, i + 1), i + 1)
  {
    hide Pass, DistinctTimes;
    var t := Pass(s, i, i + 1);
    PassSelects(s, i, i + 1);
    forall p, q | 0 <= p < q < |t| && p < i + 1
      ensures t[p].time >= t[q].time
    {
      if p < i {
        assert t[p] == t[..i][p] == s[p];
        if q < i {
          assert t[q] == t[..i][q] == s[q];
        } else {
          PassStays(s, i, i + 1, q);
          var m :| i <= m < |s| && t[q] == s[m];
        }
      }
    }
  }

  lemma {:induction false} SortFromSorts(s: seq<Record>, i: nat)
    requires SortedUpTo(s, i)
    ensures Rearranged(s, SortFrom(s, i)) && Descending(SortFrom(s, i))
    decreases |s| - i
  {
    if i + 1 < |s| {
      hide DistinctTimes;
      PassSorts(s, i);
      SortFromSorts(Pass(s, i, i + 1), i + 1);
    }
  }

  /** The sort keeps every record and orders them newest first. */
  lemma SortNewestSorts(s: seq<Record>)
    ensures multiset(SortNewest(s)) == multiset(s) && Descending(SortNewest(s))
    ensures DistinctTimes(s) ==> DistinctTimes(SortNewest(s))
  {
    SortFromSorts(s, 0);
  }

  lemma TailOf<T>(s: seq<T>)
    requires s != []
    ensures s == [s[0]] + s[1..] && multiset(s[1..]) == multiset(s) - multiset{s[0]}
  {
    assert s == [s[0]] + s[1..];
  }

  /** Records with distinct times have one order only. */
  lemma {:induction false} OneOrder(s: seq<Record>, t: seq<Record>)
    requires multiset(s) == multiset(t) && Descending(s) && Descending(t) && DistinctTimes(s) && DistinctTimes(t)
    ensures s == t
  {
    assert |s| == |multiset(s)| == |multiset(t)| == |t|;
    if s != [] {
      SameFirst(s, t);
      TailOf(s);
      TailOf(t);
      assert Descending(s[1..]) && Descending(t[1..]) && DistinctTimes(s[1..]) && DistinctTimes(t[1..]);
      hide Descending, DistinctTimes;
      OneOrder(s[1..], t[1..]);
    }
  }

  lemma SameFirst(s: seq<Record>, t: seq<Record>)
    requires multiset(s) == multiset(t) && Descending(s) && Descending(t) && DistinctTimes(s) && DistinctTimes(t)
    requires s != [] && t != []
    ensures s[0] == t[0]
  {
    assert s[0] in multiset(t) && t[0] in multiset(s);
    var k :| 0 <= k < |t| && t[k] == s[0];
    var m :| 0 <= m < |s| && s[m] == t[0];
  }

  // ---- Backup, UNDO, CHECKPOINT, REVERT -------------------------------------------------------

  /** `backups` is the versions directory by file name, `undo` the text of the undo log. */
  datatype Doc = Doc(content: string, backups: map<string, string>, undo: string, checkpoints: map<string, string>)

  function BackupName(file: string, time: int): string {
    file + "_" + Show(time) + ".bak"
  }

  function Backup(doc: Doc, file: string, time: int, user: string): Doc {
    var name := BackupName(file, time);
    doc.(backups := doc.backups[name := doc.content], undo := doc.undo + BackupLine(time, name, user))
  }

  /** New content after a backup of the old one: what a commit and a revert do. */
  function Rewrite(doc: Doc, file: string, time: int, user: string, content: string): Doc {
    Backup(doc, file, time, user).(content := content)
  }

  function FirstUnused(s: seq<Record>): (i: nat)
    ensures i <= |s|
    ensures forall k | 0 <= k < i :: s[k].used != 0
    ensures i < |s| ==> s[i].used == 0
  {
    if s == [] || s[0].used == 0 then 0 else 1 + FirstUnused(s[1..])
  }

  function Log(doc: Doc): seq<Record> {
    LoadLog(doc.undo, MAX_RECORDS)
  }

  /** UNDO: restore the newest unused backup and write the log back with its flag set. */
  function Undo(doc: Doc): Option<Doc> {
    var s := SortNewest(Log(doc));
    var i := FirstUnused(s);
    if i == |s| || s[i].name !in doc.backups then None
    else Some(doc.(content := doc.backups[s[i].name], undo := SaveLog(s[i := s[i].(used := 1)])))
  }

  /** CHECKPOINT: a tag is written once; `None` is the reply that it exists. */
  function Checkpoint(doc: Doc, tag: string): Option<Doc> {
    if tag in doc.checkpoints then None else Some(doc.(checkpoints := doc.checkpoints[tag := doc.content]))
  }

  /** REVERT: the tagged content, after a backup of the current one. */
  function Revert(doc: Doc, file: string, tag: string, time: int, user: string): Option<Doc> {
    if tag !in doc.checkpoints then None else Some(Rewrite(doc, file, time, user, doc.checkpoints[tag]))
  }

  // ---- Checkpoint files -----------------------------------------------------------------------

  /** The file a checkpoint is kept in. */
  function CheckpointName(file: string, tag: string): string {
    file + "_" + tag + ".checkpoint"
  }

  /** Two checkpoints share a file exactly if they are the same, or one document's name goes on
      with an underscore and what the other one's tag begins with. */
  lemma SharedCheckpoint(file: string, tag: string, file': string, tag': string)
    requires |file| <= |file'|
    ensures CheckpointName(file, tag) == CheckpointName(file', tag') <==>
            (file == file' && tag == tag') || exists w :: file' == file + "_" + w && tag == w + "_" + tag'
  {
    var a, b := file + "_" + tag, file' + "_" + tag';
    SameEnding(a, b, ".checkpoint");
    if a == b {
      assert file == a[..|file|] && file' == b[..|file'|] && a[|file|] == '_' && b[|file'|] == '_';
      assert tag == a[|file| + 1..] && tag' == b[|file'| + 1..];
      if |file| < |file'| {
        var w := file'[|file| + 1..];
        assert file' == file + "_" + w && tag == w + "_" + tag';
      }
    }
    forall w | file' == file + "_" + w && tag == w + "_" + tag'
      ensures a == b
    {
      assert file + "_" + (w + "_" + tag') == (file + "_" + w) + "_" + tag';
    }
  }

  lemma SameEnding<T>(a: seq<T>, b: seq<T>, end: seq<T>)
    ensures a + end == b + end <==> a == b
  {
    if a + end == b + end {
      assert (a + end)[..|a|] == a && (b + end)[..|b|] == b;
    }
  }

  /** The documents of a server keep their checkpoints apart, whatever the tags, exactly if no
      name goes on from another one with an underscore. */
  lemma CheckpointsApartExactly(files: iset<string>)
    ensures (forall file, tag, file', tag' ::
               file in files && file' in files && CheckpointName(file, tag) == CheckpointName(file', tag') ==>
                 file == file' && tag == tag')
            <==> forall file, w :: file in files ==> file + "_" + w !in files
  {
    if file, w :| file in files && file + "_" + w in files {
      SharedCheckpoint(file, w + "_" + "x", file + "_" + w, "x");
    } else {
      forall file, tag, file', tag' | file in files && file' in files && CheckpointName(file, tag) == CheckpointName(file', tag')
        ensures file == file' && tag == tag'
      {
        if |file| <= |file'| {
          SharedCheckpoint(file, tag, file', tag');
        } else {
          SharedCheckpoint(file', tag', file, tag);
        }
      }
    }
  }

  // ---- The undo stack -------------------------------------------------------------------------

  /** A content UNDO can bring back, and whether its used flag survives on disk. */
  datatype Entry = Entry(content: string, kept: bool)

  ghost function Pending(s: seq<Record>, backups: map<string, string>): seq<Entry> {
    if s == [] then []
    else (if s[0].used == 0 && s[0].name in backups then [Entry(backups[s[0].name], KeepsFlag(s[0]))] else [])
         + Pending(s[1..], backups)
  }

  /** The contents that are still to be undone, newest first. */
  ghost function Stack(doc: Doc): seq<Entry> {
    Pending(SortNewest(Log(doc)), doc.backups)
  }

  ghost predicate RecordFits(r: Record, file: string, backups: map<string, string>) {
    RecordOk(r) && r.name == BackupName(file, r.time) && r.name in backups && (!KeepsFlag(r) ==> r.used == 0)
  }

  ghost predicate RecordsFit(s: seq<Record>, file: string, backups: map<string, string>) {
    forall r :: r in s ==> RecordFits(r, file, backups)
  }

  /** A log that backups and undos of `file` have written, with times up to `last`, some of
      which may be equal. */
  ghost predicate LogFits(doc: Doc, file: string, last: int) {
    (doc.undo == "" || EndsLine(doc.undo)) && RecordsFit(Log(doc), file, doc.backups) &&
    forall r :: r in Log(doc) ==> r.time <= last
  }

  /** The same with one backup a second. */
  ghost predicate LogOk(doc: Doc, file: string, last: int) {
    LogFits(doc, file, last) && DistinctTimes(Log(doc))
  }

  lemma BackupNamesDiffer(file: string, t: int, t': int)
    requires BackupName(file, t) == BackupName(file, t')
    ensures t == t'
  {
    var a, b := BackupName(file, t), BackupName(file, t');
    assert a[|file| + 1..] == Show(t) + ".bak" && b[|file| + 1..] == Show(t') + ".bak";
    ScanOfShow(t, ".bak");
    ScanOfShow(t', ".bak");
  }

  lemma {:induction false} PendingFrame(s: seq<Record>, file: string, backups: map<string, string>,
      time: int, content: string)
    requires RecordsFit(s, file, backups) && forall r :: r in s ==> r.time != time
    ensures Pending(s, backups[BackupName(file, time) := content]) == Pending(s, backups)
  {
    if s != [] {
      if BackupName(file, s[0].time) == BackupName(file, time) {
        BackupNamesDiffer(file, s[0].time, time);
      }
      PendingFrame(s[1..], file, backups, time, content);
    }
  }

  /** The log has room for a backup of `file` at `time`. */
  predicate HasRoom(doc: Doc, file: string, time: int, user: string) {
    |Log(doc)| < MAX_RECORDS && Accepted(user) && Is64Bit(time) && NameOk(BackupName(file, time))
  }

  /** A backup that is later than every other one. */
  ghost predicate CanBackup(doc: Doc, file: string, time: int, user: string) {
    LogOk(doc, file, time - 1) && HasRoom(doc, file, time, user)
  }

  /** The record a backup appends. */
  function NewRecord(file: string, time: int, user: string): Record {
    Record(time, BackupName(file, time), Stored(user), FlagIn(user))
  }

  lemma BackupLog(doc: Doc, file: string, time: int, user: string)
    requires (doc.undo == "" || EndsLine(doc.undo)) && HasRoom(doc, file, time, user)
    ensures var r := NewRecord(file, time, user);
      Log(Backup(doc, file, time, user)) == Log(doc) + (if Listed(user) then [r] else []) &&
      (Listed(user) ==> RecordOk(r) && (KeepsFlag(r) <==> Keeps(user)) && (!KeepsFlag(r) ==> r.used == 0))
    ensures EndsLine(Backup(doc, file, time, user).undo)
  {
    hide LoadLog, ParseRecord, Show, NameOk, BackupName, BackupLine, Stored, Accepted;
    var line := BackupLine(time, BackupName(file, time), user);
    ParseBackupLine(time, BackupName(file, time), user);
    LoadOfAppend(doc.undo, line, MAX_RECORDS);
    assert (doc.undo + line)[|doc.undo + line| - 1] == line[|line| - 1];
    if Listed(user) {
      NewRecordOk(file, time, user);
    }
  }

  lemma NewRecordOk(file: string, time: int, user: string)
    requires NameOk(BackupName(file, time)) && Is64Bit(time) && Accepted(user) && Listed(user)
    ensures var r := NewRecord(file, time, user);
      RecordOk(r) && (KeepsFlag(r) <==> Keeps(user)) && (!KeepsFlag(r) ==> r.used == 0)
  {
    hide Show, BackupName, Stored, Accepted;
    StoredOk(user);
    FlagNeedsBar(user);
  }

  lemma FlagNeedsBar(user: string)
    ensures Is32Bit(FlagIn(user)) && (FlagIn(user) != 0 ==> Keeps(user))
  {
    NoBar(user);
  }

  lemma SameMembers<T>(s: seq<T>, t: seq<T>)
    requires multiset(s) == multiset(t)
    ensures forall x :: x in s <==> x in t
  {
    forall x
      ensures x in s <==> x in t
    {
      assert x in s <==> x in multiset(s);
      assert x in t <==> x in multiset(t);
    }
  }

  /** Sorting a log with a new newest record puts that record first. */
  lemma SortWithNewest(log: seq<Record>, r: Record)
    requires DistinctTimes(log) && forall x :: x in log ==> x.time < r.time
    ensures SortNewest(log + [r]) == [r] + SortNewest(log) && DistinctTimes(log + [r])
  {
    hide SortNewest;
    var s, t := SortNewest(log), SortNewest(log + [r]);
    SortNewestSorts(log);
    assert DistinctTimes(log + [r]);
    SortNewestSorts(log + [r]);
    SameMembers(s, log);
    assert multiset([r] + s) == multiset(log + [r]);
    OneOrder([r] + s, t);
  }

  /** What a backup under a user name puts on the stack. */
  function Pushed(user: string, content: string): seq<Entry> {
    if Pushes(user) then [Entry(content, Keeps(user))] else []
  }

  /** A commit or a revert pushes the content it replaces. */
  lemma RewritePushes(doc: Doc, file: string, time: int, user: string, content: string)
    requires CanBackup(doc, file, time, user)
    ensures var doc' := Rewrite(doc, file, time, user, content);
      Stack(doc') == Pushed(user, doc.content) + Stack(doc) && LogOk(doc', file, time) &&
      |Log(doc')| == |Log(doc)| + if Listed(user) then 1 else 0
  {
    hide SortNewest, LoadLog, BackupName, BackupLine, RecordOk, Stored, FlagIn, KeepsFlag, Keeps, Listed;
    var r := NewRecord(file, time, user);
    var doc' := Rewrite(doc, file, time, user, content);
    BackupLog(doc, file, time, user);
    SortNewestSorts(Log(doc));
    var s := SortNewest(Log(doc));
    SameMembers(s, Log(doc));
    PendingFrame(s, file, doc.backups, time, doc.content);
    if Listed(user) {
      assert Log(doc') == Log(doc) + [r];
      SortWithNewest(Log(doc), r);
      assert ([r] + s)[1..] == s;
    } else {
      assert Log(doc') == Log(doc);
    }
  }

  lemma {:induction false} PendingFirst(s: seq<Record>, file: string, backups: map<string, string>)
    requires RecordsFit(s, file, backups)
    ensures var i := FirstUnused(s);
      (Pending(s, backups) != [] <==> i < |s|) &&
      (i < |s| ==> RecordFits(s[i], file, backups) &&
                   Pending(s, backups)[0] == Entry(backups[s[i].name], KeepsFlag(s[i])) &&
                   Pending(s[i := s[i].(used := 1)], backups) == Pending(s, backups)[1..])
  {
    hide RecordFits, KeepsFlag;
    if s != [] {
      assert RecordFits(s[0], file, backups) by { assert s[0] in s; }
      NameIsBackedUp(s[0], file, backups);
      if s[0].used != 0 {
        PendingFirst(s[1..], file, backups);
        var i := FirstUnused(s);
        if i < |s| {
          NameIsBackedUp(s[i], file, backups);
          assert s[i := s[i].(used := 1)][1..] == s[1..][i - 1 := s[i].(used := 1)];
        }
      } else {
        assert s[0 := s[0].(used := 1)][1..] == s[1..];
      }
    }
  }

  lemma NameIsBackedUp(r: Record, file: string, backups: map<string, string>)
    requires RecordFits(r, file, backups)
    ensures r.name in backups
  {
  }

  /** Every record of the log was stored by the reader, and no lost flag is set. */
  ghost predicate WellLogged(doc: Doc) {
    (doc.undo == "" || EndsLine(doc.undo)) &&
    forall r :: r in Log(doc) ==> RecordOk(r) && (!KeepsFlag(r) ==> r.used == 0)
  }

  /** The log that the next UNDO reads. */
  lemma UndoLogAfter(doc: Doc)
    requires WellLogged(doc) && Undo(doc).Some?
    ensures var s := SortNewest(Log(doc)); var i := FirstUnused(s);
      Log(Undo(doc).value) == (if KeepsFlag(s[i]) then s[i := s[i].(used := 1)] else s) && EndsLine(Undo(doc).value.undo)
  {
    hide SortNewest, LoadLog, RecordOk, RecordLine;
    var s := SortNewest(Log(doc));
    var i := FirstUnused(s);
    SortNewestSorts(Log(doc));
    SameMembers(s, Log(doc));
    var t := s[i := s[i].(used := 1)];
    assert forall k | 0 <= k < |s| :: s[k] in s && RecordOk(s[k]);
    UsedStaysOk(s[i]);
    LoadOfSave(t, MAX_RECORDS);
    assert forall k | 0 <= k < |s| :: Reload(s[k]) == s[k];
    ReloadFlagged(s, i);
    SaveEndsLine(t);
  }

  lemma ReloadFlagged(s: seq<Record>, i: nat)
    requires i < |s| && forall k | 0 <= k < |s| :: Reload(s[k]) == s[k]
    ensures var t := s[i := s[i].(used := 1)]; ReloadAll(t) == if KeepsFlag(s[i]) then t else s
  {
  }

  lemma UsedStaysOk(r: Record)
    requires RecordOk(r)
    ensures RecordOk(r.(used := 1))
  {
  }

  lemma {:induction false} SaveEndsLine(records: seq<Record>)
    requires records != []
    ensures EndsLine(SaveLog(records))
  {
    if |records| > 1 {
      SaveEndsLine(records[1..]);
    }
  }

  /** A sorted log stays as it is, equal times included. */
  lemma {:induction false} PassOfSorted(s: seq<Record>, i: nat, j: nat)
    requires Descending(s) && i < j
    ensures Pass(s, i, j) == s
    decreases |s| - j
  {
    if j < |s| {
      PassOfSorted(s, i, j + 1);
    }
  }

  lemma {:induction false} SortOfSorted(s: seq<Record>, i: nat)
    requires Descending(s)
    ensures SortFrom(s, i) == s
    decreases |s| - i
  {
    if i + 1 < |s| {
      PassOfSorted(s, i, i + 1);
      SortOfSorted(s, i + 1);
    }
  }

  /** UNDO brings the top of the stack back; it pops it only if the used flag survives the
      rewrite of the log, and otherwise the same content stays on top. */
  lemma UndoPopsOrPeeks(doc: Doc, file: string, last: int)
    requires LogFits(doc, file, last)
    ensures Undo(doc).Some? <==> Stack(doc) != []
    ensures Stack(doc) != [] ==>
      var doc', top := Undo(doc).value, Stack(doc)[0];
      doc'.content == top.content && Stack(doc') == (if top.kept then Stack(doc)[1..] else Stack(doc)) &&
      doc'.backups == doc.backups && doc'.checkpoints == doc.checkpoints &&
      LogFits(doc', file, last) && (LogOk(doc, file, last) ==> LogOk(doc', file, last)) && |Log(doc')| == |Log(doc)|
  {
    hide LoadLog, SaveLog, RecordOk, SortNewest, NameOk, KeepsFlag, Pending, BackupName;
    var s := SortNewest(Log(doc));
    SortNewestSorts(Log(doc));
    SameMembers(s, Log(doc));
    PendingFirst(s, file, doc.backups);
    var i := FirstUnused(s);
    if i < |s| {
      var doc' := Undo(doc).value;
      assert WellLogged(doc);
      UndoLogAfter(doc);
      FlaggedFits(s, i, file, doc.backups, last);
      SortedLog(Log(doc'));
    }
  }

  lemma SortedLog(s: seq<Record>)
    requires Descending(s)
    ensures SortNewest(s) == s
  {
    SortOfSorted(s, 0);
  }

  lemma FlaggedFits(s: seq<Record>, i: nat, file: string, backups: map<string, string>, last: int)
    requires i < |s| && Descending(s) && RecordsFit(s, file, backups) && forall r :: r in s ==> r.time <= last
    ensures var t := if KeepsFlag(s[i]) then s[i := s[i].(used := 1)] else s;
      Descending(t) && RecordsFit(t, file, backups) && (DistinctTimes(s) ==> DistinctTimes(t)) &&
      forall r :: r in t ==> r.time <= last
  {
    hide RecordOk, BackupName;
    assert RecordFits(s[i], file, backups) by { assert s[i] in s; }
    UsedStaysOk(s[i]);
    var t := s[i := s[i].(used := 1)];
    assert forall k | 0 <= k < |t| :: t[k].time == s[k].time && s[k] in s;
  }

  // ---- Backups in the same second -------------------------------------------------------------

  function Contents(stack: seq<Entry>): (r: seq<string>)
    ensures |r| == |stack| && forall k | 0 <= k < |r| :: r[k] == stack[k].content
  {
    seq(|stack|, k requires 0 <= k < |stack| => stack[k].content)
  }

  /** The times of the backups that are still to be undone, newest first. */
  function PendingTimes(s: seq<Record>): seq<int> {
    if s == [] then [] else (if s[0].used == 0 then [s[0].time] else []) + PendingTimes(s[1..])
  }

  /** What the backups of some times hold. */
  function HeldAt(times: seq<int>, file: string, backups: map<string, string>): (r: seq<string>)
    ensures |r| == |times|
    ensures forall k | 0 <= k < |r| ::
      r[k] == if BackupName(file, times[k]) in backups then backups[BackupName(file, times[k])] else ""
  {
    seq(|times|, k requires 0 <= k < |times| =>
      if BackupName(file, times[k]) in backups then backups[BackupName(file, times[k])] else "")
  }

  lemma {:induction false} ContentsByTime(s: seq<Record>, file: string, backups: map<string, string>)
    requires RecordsFit(s, file, backups)
    ensures Contents(Pending(s, backups)) == HeldAt(PendingTimes(s), file, backups)
  {
    hide RecordOk, BackupName, KeepsFlag;
    if s != [] {
      assert RecordFits(s[0], file, backups) by { assert s[0] in s; }
      ContentsByTime(s[1..], file, backups);
    }
  }

  lemma {:induction false} PendingTimesConcat(s: seq<Record>, t: seq<Record>)
    ensures PendingTimes(s + t) == PendingTimes(s) + PendingTimes(t)
  {
    if s == [] {
      assert s + t == t;
    } else {
      assert (s + t)[1..] == s[1..] + t;
      PendingTimesConcat(s[1..], t);
    }
  }

  /** The order of records does not change which times are pending. */
  lemma {:induction false} PendingTimesOfSame(s: seq<Record>, t: seq<Record>)
    requires multiset(s) == multiset(t)
    ensures multiset(PendingTimes(s)) == multiset(PendingTimes(t))
  {
    if s == [] {
      assert t == [] by { assert |t| == |multiset(t)| == |multiset(s)| == 0; }
    } else {
      var r := s[0];
      assert r in multiset(t);
      var k :| 0 <= k < |t| && t[k] == r;
      TailOf(s);
      Taken(t, k);
      hide PendingTimes;
      TimesWithout(s, 0);
      TimesWithout(t, k);
      assert s[..0] + s[1..] == s[1..];
      PendingTimesOfSame(s[1..], t[..k] + t[k + 1..]);
    }
  }

  function TimeIfPending(r: Record): multiset<int> {
    if r.used == 0 then multiset{r.time} else multiset{}
  }

  lemma TimesWithout(t: seq<Record>, k: nat)
    requires k < |t|
    ensures multiset(PendingTimes(t)) == TimeIfPending(t[k]) + multiset(PendingTimes(t[..k] + t[k + 1..]))
  {
    var a, b := t[..k], t[k + 1..];
    Taken(t, k);
    PendingTimesConcat(a, b);
    PendingTimesConcat(a, [t[k]] + b);
    assert ([t[k]] + b)[1..] == b;
  }

  lemma Taken<T>(t: seq<T>, k: nat)
    requires k < |t|
    ensures t == t[..k] + ([t[k]] + t[k + 1..]) && multiset(t[..k] + t[k + 1..]) == multiset(t) - multiset{t[k]}
  {
    assert t == t[..k] + ([t[k]] + t[k + 1..]);
  }

  predicate Falling(ts: seq<int>) {
    forall i, j | 0 <= i < j < |ts| :: ts[i] >= ts[j]
  }

  lemma {:induction false} PendingTimesFall(s: seq<Record>)
    requires Descending(s)
    ensures Falling(PendingTimes(s)) && forall t :: t in PendingTimes(s) ==> exists r :: r in s && r.time == t && r.used == 0
  {
    if s != [] {
      PendingTimesFall(s[1..]);
      var rest := PendingTimes(s[1..]);
      forall t | t in rest
        ensures t <= s[0].time && exists r :: r in s && r.time == t && r.used == 0
      {
        var r :| r in s[1..] && r.time == t && r.used == 0;
        assert r in s;
        var k :| 0 <= k < |s[1..]| && s[1..][k] == r;
        assert s[k + 1] == r;
      }
      forall i, j | 0 <= i < j < |PendingTimes(s)|
        ensures PendingTimes(s)[i] >= PendingTimes(s)[j]
      {
        if s[0].used == 0 {
          assert PendingTimes(s) == [s[0].time] + rest;
          assert rest[j - 1] in rest;
        } else {
          assert PendingTimes(s) == rest;
        }
      }
    }
  }

  lemma {:induction false} FallingOrder(ts: seq<int>, us: seq<int>)
    requires multiset(ts) == multiset(us) && Falling(ts) && Falling(us)
    ensures ts == us
  {
    assert |ts| == |multiset(ts)| == |multiset(us)| == |us|;
    if ts != [] {
      SameTop(ts, us);
      TailOf(ts);
      TailOf(us);
      assert Falling(ts[1..]) && Falling(us[1..]);
      hide Falling;
      FallingOrder(ts[1..], us[1..]);
    }
  }

  lemma SameTop(ts: seq<int>, us: seq<int>)
    requires multiset(ts) == multiset(us) && Falling(ts) && Falling(us) && ts != [] && us != []
    ensures ts[0] == us[0]
  {
    assert ts[0] in multiset(us) && us[0] in multiset(ts);
    var k :| 0 <= k < |us| && us[k] == ts[0];
    var m :| 0 <= m < |ts| && ts[m] == us[0];
  }

  /** A backup at or after every other one adds its time on top of the pending ones. */
  lemma TimesAfterBackup(log: seq<Record>, r: Record)
    requires forall x :: x in log ==> x.time <= r.time
    ensures PendingTimes(SortNewest(log + [r])) == (if r.used == 0 then [r.time] else []) + PendingTimes(SortNewest(log))
  {
    hide SortNewest, PendingTimes;
    var s, t := SortNewest(log), SortNewest(log + [r]);
    SortNewestSorts(log);
    SortNewestSorts(log + [r]);
    SameMembers(s, log);
    PendingTimesFall(s);
    PendingTimesFall(t);
    assert multiset([r] + s) == multiset(t);
    PendingTimesOfSame([r] + s, t);
    TimesOfCons(r, s);
    var top := (if r.used == 0 then [r.time] else []) + PendingTimes(s);
    forall x | x in PendingTimes(s) ensures x <= r.time {
      var y :| y in s && y.time == x && y.used == 0;
    }
    assert Falling(top) by { OnTop(r.time, PendingTimes(s)); }
    FallingOrder(top, PendingTimes(t));
  }

  lemma OnTop(t: int, ts: seq<int>)
    requires Falling(ts) && forall x :: x in ts ==> x <= t
    ensures Falling([t] + ts) && [] + ts == ts
  {
    forall i, j | 0 <= i < j < |[t] + ts| ensures ([t] + ts)[i] >= ([t] + ts)[j] {
      assert ts[j - 1] in ts;
    }
  }

  lemma TimesOfCons(r: Record, s: seq<Record>)
    ensures PendingTimes([r] + s) == (if r.used == 0 then [r.time] else []) + PendingTimes(s)
  {
    assert ([r] + s)[1..] == s;
  }

  /** A pending backup of that very second. */
  ghost predicate PendingAt(doc: Doc, time: int) {
    exists r :: r in Log(doc) && r.time == time && r.used == 0
  }

  lemma {:induction false} PendingTimesHold(s: seq<Record>, r: Record)
    requires r in s && r.used == 0
    ensures r.time in PendingTimes(s)
  {
    if s[0] != r {
      assert r in s[1..];
      PendingTimesHold(s[1..], r);
    }
  }

  lemma PendingAtTimes(doc: Doc, time: int)
    ensures PendingAt(doc, time) <==> time in PendingTimes(SortNewest(Log(doc)))
  {
    hide SortNewest, LoadLog;
    var s := SortNewest(Log(doc));
    SortNewestSorts(Log(doc));
    SameMembers(s, Log(doc));
    PendingTimesFall(s);
    if PendingAt(doc, time) {
      var r :| r in Log(doc) && r.time == time && r.used == 0;
      PendingTimesHold(s, r);
    }
  }

  /** A rewrite keeps the log fit, even in the second of an earlier one. */
  lemma RewriteFits(doc: Doc, file: string, time: int, user: string, content: string)
    requires LogFits(doc, file, time) && HasRoom(doc, file, time, user)
    ensures LogFits(Rewrite(doc, file, time, user, content), file, time)
  {
    hide LoadLog, BackupName, BackupLine, RecordOk, Stored, FlagIn, KeepsFlag, Keeps, Listed;
    BackupLog(doc, file, time, user);
    assert forall r :: r in Log(doc) ==> RecordFits(r, file, doc.backups);
  }

  /** What the stack holds after a rewrite at or after every other one: the old content on
      top, under it the pending backups as the versions directory has them now. */
  lemma StackAfterRewrite(doc: Doc, file: string, time: int, user: string, content: string)
    requires LogFits(doc, file, time) && HasRoom(doc, file, time, user)
    ensures var doc' := Rewrite(doc, file, time, user, content);
      Contents(Stack(doc')) ==
        (if Pushes(user) then [doc.content] else []) + HeldAt(PendingTimes(SortNewest(Log(doc))), file, doc'.backups)
  {
    hide SortNewest, LoadLog, BackupName, BackupLine, RecordFits, Stored, FlagIn, KeepsFlag, Keeps, Listed,
      PendingTimes, Stack, HeldAt;
    var r := NewRecord(file, time, user);
    var doc' := Rewrite(doc, file, time, user, content);
    BackupLog(doc, file, time, user);
    RewriteFits(doc, file, time, user, content);
    StackByTime(doc', file);
    var times := PendingTimes(SortNewest(Log(doc)));
    if Listed(user) {
      TimesAfterBackup(Log(doc), r);
      if r.used == 0 {
        HeldCons(time, times, file, doc'.backups);
      } else {
        assert [] + times == times;
      }
    } else {
      assert Log(doc) + [] == Log(doc);
    }
  }

  lemma HeldCons(time: int, times: seq<int>, file: string, backups: map<string, string>)
    requires BackupName(file, time) in backups
    ensures HeldAt([time] + times, file, backups) == [backups[BackupName(file, time)]] + HeldAt(times, file, backups)
  {
    hide BackupName;
  }

  /** A rewrite pushes its old content and leaves every other one that could be undone as it
      was if and only if no backup of that second is pending, or it holds that very content:
      two backups of a second share a file. */
  lemma SameSecondExactly(doc: Doc, file: string, time: int, user: string, content: string)
    requires LogFits(doc, file, time) && HasRoom(doc, file, time, user)
    ensures Contents(Stack(Rewrite(doc, file, time, user, content))) ==
              (if Pushes(user) then [doc.content] else []) + Contents(Stack(doc))
            <==> !PendingAt(doc, time) ||
                 (BackupName(file, time) in doc.backups && doc.backups[BackupName(file, time)] == doc.content)
  {
    hide SortNewest, LoadLog, BackupName, Stack, Pushes, PendingTimes, PendingAt;
    var doc' := Rewrite(doc, file, time, user, content);
    var s := SortNewest(Log(doc));
    StackAfterRewrite(doc, file, time, user, content);
    SortNewestSorts(Log(doc));
    SameMembers(s, Log(doc));
    StackByTime(doc, file);
    PendingAtTimes(doc, time);
    PendingNamed(s, file, doc.backups);
    HeldChanged(PendingTimes(s), file, doc.backups, time, doc.content);
    SamePrefix(if Pushes(user) then [doc.content] else [], HeldAt(PendingTimes(s), file, doc'.backups),
      HeldAt(PendingTimes(s), file, doc.backups));
  }

  lemma SamePrefix<T>(p: seq<T>, a: seq<T>, b: seq<T>)
    ensures p + a == p + b <==> a == b
  {
    if p + a == p + b {
      assert (p + a)[|p|..] == a && (p + b)[|p|..] == b;
    }
  }

  lemma PendingNamed(s: seq<Record>, file: string, backups: map<string, string>)
    requires RecordsFit(s, file, backups) && Descending(s)
    ensures forall t :: t in PendingTimes(s) ==> BackupName(file, t) in backups
  {
    hide RecordOk, BackupName, PendingTimes;
    PendingTimesFall(s);
    forall t | t in PendingTimes(s)
      ensures BackupName(file, t) in backups
    {
      var r :| r in s && r.time == t && r.used == 0;
      assert RecordFits(r, file, backups);
    }
  }

  lemma StackByTime(doc: Doc, file: string)
    requires RecordsFit(Log(doc), file, doc.backups)
    ensures Contents(Stack(doc)) == HeldAt(PendingTimes(SortNewest(Log(doc))), file, doc.backups)
  {
    hide SortNewest, LoadLog, RecordFits;
    SortNewestSorts(Log(doc));
    SameMembers(SortNewest(Log(doc)), Log(doc));
    ContentsByTime(SortNewest(Log(doc)), file, doc.backups);
  }

  lemma HeldChanged(times: seq<int>, file: string, backups: map<string, string>, time: int, content: string)
    requires forall t :: t in times ==> BackupName(file, t) in backups
    ensures HeldAt(times, file, backups[BackupName(file, time) := content]) == HeldAt(times, file, backups)
            <==> time !in times || backups[BackupName(file, time)] == content
  {
    hide BackupName;
    forall t | BackupName(file, t) == BackupName(file, time) ensures t == time {
      BackupNamesDiffer(file, t, time);
    }
    var backups' := backups[BackupName(file, time) := content];
    if time in times && backups[BackupName(file, time)] != content {
      var k :| 0 <= k < |times| && times[k] == time;
      assert HeldAt(times, file, backups')[k] != HeldAt(times, file, backups)[k];
    }
  }
}
