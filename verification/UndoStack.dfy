/** UNDO over whole histories: any mix of rewrites and undos follows a stack of old
    contents, and what repeated undos bring back. */
module UndoStack {
  import opened Text
  import opened Decimal
  import opened UndoLog
  import opened Documents

  /** A commit or revert that writes `content`, or an UNDO. */
  datatype Change = Write(time: int, user: string, content: string) | TakeBack

  function Play(doc: Doc, file: string, changes: seq<Change>): Doc
    decreases |changes|
  {
    if changes == [] then doc
    else
      var rest := changes[1..];
      match changes[0]
      case Write(time, user, content) => Play(Rewrite(doc, file, time, user, content), file, rest)
      case TakeBack => Play(if Undo(doc).Some? then Undo(doc).value else doc, file, rest)
  }

  /** The specification: writing pushes the old content, undoing restores the top and pops
      it when its flag is kept. */
  ghost function PlayStack(content: string, stack: seq<Entry>, changes: seq<Change>): (string, seq<Entry>)
    decreases |changes|
  {
    if changes == [] then (content, stack)
    else
      var rest := changes[1..];
      match changes[0]
      case Write(_, user, next) => PlayStack(next, Pushed(user, content) + stack, rest)
      case TakeBack =>
        if stack == [] then PlayStack(content, stack, rest)
        else PlayStack(stack[0].content, if stack[0].kept then stack[1..] else stack, rest)
  }

  /** Writes come at increasing times, by users the handshake takes, and fit the log's room. */
  predicate Timed(changes: seq<Change>, file: string, last: int, room: int) {
    changes == [] ||
    match changes[0]
    case Write(time, user, _) =>
      last < time && 0 < room && Is64Bit(time) && Accepted(user) && NameOk(BackupName(file, time)) &&
      Timed(changes[1..], file, time, room - if Listed(user) then 1 else 0)
    case TakeBack => Timed(changes[1..], file, last, room)
  }

  lemma LaterBound(doc: Doc, file: string, last: int, last': int)
    requires LogOk(doc, file, last) && last <= last'
    ensures LogOk(doc, file, last')
  {
  }

  lemma OkFits(doc: Doc, file: string, last: int)
    requires LogOk(doc, file, last)
    ensures LogFits(doc, file, last)
  {
  }

  /** Every mix of writes, reverts and undos behaves as the stack does. */
  lemma {:induction false} PlayFollowsStack(doc: Doc, file: string, changes: seq<Change>, last: int)
    requires LogOk(doc, file, last) && Timed(changes, file, last, MAX_RECORDS - |Log(doc)|)
    ensures var end := Play(doc, file, changes);
      PlayStack(doc.content, Stack(doc), changes) == (end.content, Stack(end))
    decreases |changes|
  {
    hide Log, Stack, Undo, Rewrite, Backup, LogOk, LogFits, NameOk, BackupName, Accepted, Listed, Pushed;
    if changes != [] {
      match changes[0]
      case Write(time, user, content) =>
        assert CanBackup(doc, file, time, user) by { LaterBound(doc, file, last, time - 1); }
        RewritePushes(doc, file, time, user, content);
        var doc' := Rewrite(doc, file, time, user, content);
        assert doc'.content == content by { RewriteContent(doc, file, time, user, content); }
        PlayFollowsStack(doc', file, changes[1..], time);
      case TakeBack =>
        OkFits(doc, file, last);
        UndoPopsOrPeeks(doc, file, last);
        PlayFollowsStack(if Undo(doc).Some? then Undo(doc).value else doc, file, changes[1..], last);
    }
  }

  lemma RewriteContent(doc: Doc, file: string, time: int, user: string, content: string)
    ensures Rewrite(doc, file, time, user, content).content == content
  {
  }

  // ---- Writes, then undos ---------------------------------------------------------------------

  /** A write: when, by whom, and what. */
  datatype Version = Version(time: int, user: string, content: string)

  function Writes(vs: seq<Version>): seq<Change> {
    if vs == [] then [] else [Write(vs[0].time, vs[0].user, vs[0].content)] + Writes(vs[1..])
  }

  function TakeBacks(k: nat): seq<Change> {
    if k == 0 then [] else [TakeBack] + TakeBacks(k - 1)
  }

  lemma {:induction false} PlayStackConcat(content: string, stack: seq<Entry>, a: seq<Change>, b: seq<Change>)
    ensures PlayStack(content, stack, a + b) ==
            var (c, s) := PlayStack(content, stack, a); PlayStack(c, s, b)
    decreases |a|
  {
    hide Pushed;
    if a == [] {
      assert a + b == b;
    } else {
      assert (a + b)[1..] == a[1..] + b;
      match a[0]
      case Write(_, user, next) => PlayStackConcat(next, Pushed(user, content) + stack, a[1..], b);
      case TakeBack =>
        if stack == [] {
          PlayStackConcat(content, stack, a[1..], b);
        } else {
          PlayStackConcat(stack[0].content, if stack[0].kept then stack[1..] else stack, a[1..], b);
        }
    }
  }

  /** The content write `i` replaces. */
  function Before(content: string, vs: seq<Version>, i: nat): string
    requires i <= |vs|
  {
    if i == 0 then content else vs[i - 1].content
  }

  /** What some writes push, newest first. */
  function Entries(content: string, vs: seq<Version>): seq<Entry> {
    if vs == [] then []
    else
      var n := |vs| - 1;
      Pushed(vs[n].user, Before(content, vs, n)) + Entries(content, vs[..n])
  }

  lemma WritesSnoc(vs: seq<Version>, v: Version)
    ensures Writes(vs + [v]) == Writes(vs) + [Write(v.time, v.user, v.content)]
  {
    if vs == [] {
      assert vs + [v] == [v];
    } else {
      assert (vs + [v])[1..] == vs[1..] + [v];
      WritesSnoc(vs[1..], v);
    }
  }

  lemma {:induction false} StackOfWrites(content: string, stack: seq<Entry>, vs: seq<Version>)
    ensures PlayStack(content, stack, Writes(vs)) == (Before(content, vs, |vs|), Entries(content, vs) + stack)
  {
    hide Pushed;
    if vs == [] {
      assert Entries(content, vs) + stack == stack;
    } else {
      var n := |vs| - 1;
      var before, v := vs[..n], vs[n];
      assert vs == before + [v];
      WritesSnoc(before, v);
      StackOfWrites(content, stack, before);
      PlayStackConcat(content, stack, Writes(before), [Write(v.time, v.user, v.content)]);
      var c, e := Before(content, before, n), Pushed(v.user, Before(content, before, n));
      assert c == Before(content, vs, n);
      OneWrite(c, Entries(content, before) + stack, v);
      assert e + (Entries(content, before) + stack) == e + Entries(content, before) + stack;
    }
  }

  lemma OneWrite(content: string, stack: seq<Entry>, v: Version)
    ensures PlayStack(content, stack, [Write(v.time, v.user, v.content)]) == (v.content, Pushed(v.user, content) + stack)
  {
    assert [Write(v.time, v.user, v.content)][1..] == [];
  }

  /** The first entry whose flag gets lost, or the depth of the stack. */
  function FirstLost(stack: seq<Entry>): (i: nat)
    ensures i <= |stack| && (forall k | 0 <= k < i :: stack[k].kept) && (i < |stack| ==> !stack[i].kept)
  {
    if stack == [] || !stack[0].kept then 0 else 1 + FirstLost(stack[1..])
  }

  /** The entry that `k` undos end at. */
  function Depth(stack: seq<Entry>, k: nat): (i: nat)
    requires stack != [] && k > 0
    ensures i < |stack| && i < k && i <= FirstLost(stack)
  {
    var lost := FirstLost(stack);
    if lost < k && lost < |stack| then lost else if k <= |stack| then k - 1 else |stack| - 1
  }

  lemma {:induction false} LostFlagsRepeat(content: string, stack: seq<Entry>, k: nat)
    requires k > 0 && stack != [] && !stack[0].kept
    ensures PlayStack(content, stack, TakeBacks(k)) == (stack[0].content, stack)
    decreases k
  {
    assert TakeBacks(k)[1..] == TakeBacks(k - 1);
    if k > 1 {
      LostFlagsRepeat(stack[0].content, stack, k - 1);
    }
  }

  lemma {:induction false} EmptyStays(content: string, k: nat)
    ensures PlayStack(content, [], TakeBacks(k)) == (content, [])
  {
    if k > 0 {
      assert TakeBacks(k)[1..] == TakeBacks(k - 1);
      EmptyStays(content, k - 1);
    }
  }

  /** Undos go down the stack one entry each, as far as the first lost flag. */
  lemma {:induction false} UndosGoDown(content: string, stack: seq<Entry>, k: nat)
    requires stack != [] && k > 0
    ensures PlayStack(content, stack, TakeBacks(k)).0 == stack[Depth(stack, k)].content
    decreases k
  {
    assert TakeBacks(k)[1..] == TakeBacks(k - 1);
    if !stack[0].kept {
      LostFlagsRepeat(content, stack, k);
    } else if k == 1 {
      assert PlayStack(stack[0].content, stack[1..], TakeBacks(0)) == (stack[0].content, stack[1..]);
    } else if |stack| == 1 {
      assert stack[1..] == [];
      EmptyStays(stack[0].content, k - 1);
    } else {
      UndosGoDown(stack[0].content, stack[1..], k - 1);
    }
  }

  /** Any writes by any users, and then any number of undos: the content at the end is that of
      the entry under the first lost flag, or of the k-th entry if no flag above it is lost,
      or of the last entry if there are fewer. */
  lemma UndosReach(doc: Doc, file: string, vs: seq<Version>, k: nat, last: int)
    requires LogOk(doc, file, last) && Timed(Writes(vs) + TakeBacks(k), file, last, MAX_RECORDS - |Log(doc)|)
    ensures var stack := Entries(doc.content, vs) + Stack(doc);
      Play(doc, file, Writes(vs) + TakeBacks(k)).content ==
      if k == 0 || stack == [] then Before(doc.content, vs, |vs|) else stack[Depth(stack, k)].content
  {
    hide Log, Stack, Undo, Rewrite, Backup, LogOk, Entries, Depth;
    PlayFollowsStack(doc, file, Writes(vs) + TakeBacks(k), last);
    PlayStackConcat(doc.content, Stack(doc), Writes(vs), TakeBacks(k));
    StackOfWrites(doc.content, Stack(doc), vs);
    var c, stack := Before(doc.content, vs, |vs|), Entries(doc.content, vs) + Stack(doc);
    if k > 0 {
      if stack == [] {
        EmptyStays(c, k);
      } else {
        UndosGoDown(c, stack, k);
      }
    }
  }

  /** One past the last write whose flag gets lost, or 0. */
  function LostUpTo(vs: seq<Version>): (i: nat)
    ensures i <= |vs| && (forall k | i <= k < |vs| :: Keeps(vs[k].user)) && (i > 0 ==> !Keeps(vs[i - 1].user))
  {
    if vs == [] || !Keeps(vs[|vs| - 1].user) then |vs| else LostUpTo(vs[..|vs| - 1])
  }

  lemma {:induction false} EntriesAt(content: string, vs: seq<Version>, k: nat)
    requires k < |vs| && forall v :: v in vs ==> Pushes(v.user)
    ensures |Entries(content, vs)| == |vs|
    ensures var i := |vs| - 1 - k; Entries(content, vs)[k] == Entry(Before(content, vs, i), Keeps(vs[i].user))
  {
    hide Pushes, Keeps, Before;
    var n := |vs| - 1;
    var before := vs[..n];
    assert vs[n] in vs;
    EntriesSnoc(content, vs);
    if n > 0 {
      EntriesAt(content, before, if k > 0 then k - 1 else 0);
      if k > 0 {
        SameBefore(content, vs, n - k);
      }
    }
  }

  lemma EntriesSnoc(content: string, vs: seq<Version>)
    requires vs != [] && Pushes(vs[|vs| - 1].user)
    ensures var n := |vs| - 1;
      Entries(content, vs) == [Entry(Before(content, vs, n), Keeps(vs[n].user))] + Entries(content, vs[..n]) &&
      (n == 0 ==> Entries(content, vs[..n]) == []) && forall v :: v in vs[..n] ==> v in vs
  {
    hide Pushes, Keeps, Before;
  }

  lemma SameBefore(content: string, vs: seq<Version>, i: nat)
    requires i < |vs|
    ensures Before(content, vs[..|vs| - 1], i) == Before(content, vs, i)
  {
  }

  /** As many undos as writes, each by a user under whose name a backup can be undone, restore
      the starting content exactly when no flag is lost, or when the last write whose flag is
      lost replaced that content. They end at the content that write replaced. */
  lemma UndosRestoreExactly(doc: Doc, file: string, vs: seq<Version>, last: int)
    requires LogOk(doc, file, last) && forall v :: v in vs ==> Pushes(v.user)
    requires Timed(Writes(vs) + TakeBacks(|vs|), file, last, MAX_RECORDS - |Log(doc)|)
    ensures var end, lost := Play(doc, file, Writes(vs) + TakeBacks(|vs|)), LostUpTo(vs);
      end.content == (if lost == 0 then doc.content else Before(doc.content, vs, lost - 1)) &&
      (end.content == doc.content <==>
        (forall v :: v in vs ==> Keeps(v.user)) || Before(doc.content, vs, lost - 1) == doc.content)
  {
    hide Log, Stack, Undo, Rewrite, Backup, LogOk, Entries, Pushes, Keeps, Depth;
    UndosReach(doc, file, vs, |vs|, last);
    if vs != [] {
      DepthOfWrites(doc.content, vs, Stack(doc));
    }
  }

  lemma DepthOfWrites(content: string, vs: seq<Version>, stack: seq<Entry>)
    requires vs != [] && forall v :: v in vs ==> Pushes(v.user)
    ensures var all, lost := Entries(content, vs) + stack, LostUpTo(vs);
      all != [] && all[Depth(all, |vs|)].content == if lost == 0 then content else Before(content, vs, lost - 1)
  {
    hide Entries, Pushes, Keeps;
    var all, lost, n := Entries(content, vs) + stack, LostUpTo(vs), |vs|;
    EntriesAt(content, vs, 0);
    forall k | 0 <= k < n
      ensures all[k] == Entry(Before(content, vs, n - 1 - k), Keeps(vs[n - 1 - k].user))
    {
      EntriesAt(content, vs, k);
    }
    var f := FirstLost(all);
    if lost > 0 {
      assert !all[n - lost].kept;
      assert forall k | 0 <= k < n - lost :: all[k].kept;
      assert f == n - lost;
    }
  }

  /** Undoing as often as one wrote leaves content and stack as they were, if flags are kept. */
  lemma {:induction false} KeptFlagsUnwind(content: string, stack: seq<Entry>, vs: seq<Version>)
    requires forall v :: v in vs ==> Pushes(v.user) && Keeps(v.user)
    ensures PlayStack(content, stack, Writes(vs) + TakeBacks(|vs|)) == (content, stack)
    decreases |vs|
  {
    hide Pushes, Keeps;
    if vs == [] {
      assert Writes(vs) + TakeBacks(0) == [];
    } else {
      var all, rest := Writes(vs) + TakeBacks(|vs|), Writes(vs[1..]) + TakeBacks(|vs| - 1);
      TakeBacksSnoc(|vs| - 1);
      assert vs[0] in vs;
      assert all[0] == Write(vs[0].time, vs[0].user, vs[0].content) && all[1..] == rest + [TakeBack];
      var s := [Entry(content, true)] + stack;
      KeptFlagsUnwind(vs[0].content, s, vs[1..]);
      PlayStackConcat(vs[0].content, s, rest, [TakeBack]);
      assert s[1..] == stack;
      assert PlayStack(vs[0].content, s, [TakeBack]) == PlayStack(content, stack, [TakeBack][1..]);
    }
  }

  lemma TakeBacksSnoc(k: nat)
    ensures TakeBacks(k + 1) == TakeBacks(k) + [TakeBack]
  {
    if k > 0 { TakeBacksSnoc(k - 1); }
  }

  // ---- Clocks that do not advance ---------------------------------------------------------------

  /** Writes come at times that do not decrease. */
  predicate Clocked(changes: seq<Change>, file: string, last: int, room: int) {
    changes == [] ||
    match changes[0]
    case Write(time, user, _) =>
      last <= time && 0 < room && Is64Bit(time) && Accepted(user) && NameOk(BackupName(file, time)) &&
      Clocked(changes[1..], file, time, room - if Listed(user) then 1 else 0)
    case TakeBack => Clocked(changes[1..], file, last, room)
  }

  function LastTime(changes: seq<Change>, last: int): int {
    if changes == [] then last
    else LastTime(changes[1..], if changes[0].Write? then changes[0].time else last)
  }

  /** Whatever mix of writes and undos came before, several a second included, the log is one
      to which `SameSecondExactly` and `UndoPopsOrPeeks` apply. */
  lemma {:induction false} ClockedKeepsLog(doc: Doc, file: string, changes: seq<Change>, last: int)
    requires LogFits(doc, file, last) && Clocked(changes, file, last, MAX_RECORDS - |Log(doc)|)
    ensures LogFits(Play(doc, file, changes), file, LastTime(changes, last))
    decreases |changes|
  {
    hide Log, Stack, Undo, Rewrite, Backup, NameOk, BackupName, Accepted, Listed, RecordsFit;
    if changes != [] {
      match changes[0]
      case Write(time, user, content) =>
        RewriteFits(doc, file, time, user, content);
        RewriteGrows(doc, file, time, user, content);
        ClockedKeepsLog(Rewrite(doc, file, time, user, content), file, changes[1..], time);
      case TakeBack =>
        UndoPopsOrPeeks(doc, file, last);
        ClockedKeepsLog(if Undo(doc).Some? then Undo(doc).value else doc, file, changes[1..], last);
    }
  }

  lemma RewriteGrows(doc: Doc, file: string, time: int, user: string, content: string)
    requires LogFits(doc, file, time) && HasRoom(doc, file, time, user)
    ensures |Log(Rewrite(doc, file, time, user, content))| == |Log(doc)| + if Listed(user) then 1 else 0
  {
    hide LoadLog, BackupLine;
    BackupLog(doc, file, time, user);
  }

  /** Two writes in one second, after older ones: the second pushes its old content on top of
      everything that could be undone if and only if the first left the file as it was, or was
      made under a name that pushes nothing. Otherwise the first old content is gone. */
  lemma SameSecondLosesBackup(doc: Doc, file: string, time: int, user: string, user': string, a: string, b: string)
    requires CanBackup(doc, file, time, user) && Accepted(user') && |Log(doc)| + 1 < MAX_RECORDS
    ensures var doc1 := Rewrite(doc, file, time, user, a); var doc2 := Rewrite(doc1, file, time, user', b);
      (Contents(Stack(doc2)) == (if Pushes(user') then [a] else []) + Contents(Stack(doc1))
       <==> !Pushes(user) || a == doc.content) &&
      (Pushes(user) ==> Contents(Stack(doc2)) == (if Pushes(user') then [a] else []) + [a] + Contents(Stack(doc)))
  {
    hide Log, Stack, SortNewest, BackupName, LogFits, Listed, Pushes, BackupLine;
    var doc1 := Rewrite(doc, file, time, user, a);
    var doc2 := Rewrite(doc1, file, time, user', b);
    OkFits(doc, file, time - 1);
    FitsLater(doc, file, time - 1, time);
    RewriteGrows(doc, file, time, user, a);
    RewriteFits(doc, file, time, user, a);
    RewriteContent(doc, file, time, user, a);
    SameSecondExactly(doc1, file, time, user', b);
    NewlyPending(doc, file, time, user, a);
    if Pushes(user) {
      TwiceInOneSecond(doc, file, time, user, user', a, b);
    }
  }

  lemma FitsLater(doc: Doc, file: string, last: int, last': int)
    requires LogFits(doc, file, last) && last <= last'
    ensures LogFits(doc, file, last')
  {
  }

  lemma NewlyPending(doc: Doc, file: string, time: int, user: string, content: string)
    requires LogFits(doc, file, time - 1) && HasRoom(doc, file, time, user)
    ensures var doc' := Rewrite(doc, file, time, user, content);
      (PendingAt(doc', time) <==> Pushes(user)) &&
      BackupName(file, time) in doc'.backups && doc'.backups[BackupName(file, time)] == doc.content
  {
    hide LoadLog, BackupName, BackupLine, Stored, FlagIn;
    BackupLog(doc, file, time, user);
    var doc' := Rewrite(doc, file, time, user, content);
    if Listed(user) {
      assert NewRecord(file, time, user) in Log(doc');
    }
  }

  lemma TwiceInOneSecond(doc: Doc, file: string, time: int, user: string, user': string, a: string, b: string)
    requires LogFits(doc, file, time - 1) && HasRoom(doc, file, time, user) && Pushes(user)
    requires Accepted(user') && |Log(doc)| + 1 < MAX_RECORDS
    ensures var doc2 := Rewrite(Rewrite(doc, file, time, user, a), file, time, user', b);
      Contents(Stack(doc2)) == (if Pushes(user') then [a] else []) + [a] + Contents(Stack(doc))
  {
    hide Log, Stack, SortNewest, BackupName, BackupLine, RecordsFit, HeldAt, PendingTimes, Pushes;
    FitsLater(doc, file, time - 1, time);
    var doc1 := Rewrite(doc, file, time, user, a);
    var times := PendingTimes(SortNewest(Log(doc)));
    RewriteGrows(doc, file, time, user, a);
    RewriteFits(doc, file, time, user, a);
    RewriteContent(doc, file, time, user, a);
    StackAfterRewrite(doc1, file, time, user', b);
    PendingOfRewrite(doc, file, time, user, a);
    var backups := Rewrite(doc1, file, time, user', b).backups;
    assert backups == doc.backups[BackupName(file, time) := a] by { TwiceWritten(doc, file, time, user, user', a, b); }
    HeldCons(time, times, file, backups);
    StackByTime(doc, file);
    SortedTimes(doc, file, time);
    HeldChanged(times, file, doc.backups, time, a);
    var p, q := if Pushes(user') then [a] else [], HeldAt(times, file, backups);
    assert p + ([a] + q) == p + [a] + q;
  }

  lemma TwiceWritten(doc: Doc, file: string, time: int, user: string, user': string, a: string, b: string)
    ensures Rewrite(Rewrite(doc, file, time, user, a), file, time, user', b).backups == doc.backups[BackupName(file, time) := a]
  {
    hide BackupName, BackupLine;
  }

  lemma PendingOfRewrite(doc: Doc, file: string, time: int, user: string, content: string)
    requires LogFits(doc, file, time) && HasRoom(doc, file, time, user) && Pushes(user)
    ensures PendingTimes(SortNewest(Log(Rewrite(doc, file, time, user, content)))) ==
            [time] + PendingTimes(SortNewest(Log(doc)))
  {
    hide LoadLog, BackupLine, SortNewest, PendingTimes, BackupName, Stored, FlagIn;
    BackupLog(doc, file, time, user);
    TimesAfterBackup(Log(doc), NewRecord(file, time, user));
  }

  lemma SortedTimes(doc: Doc, file: string, time: int)
    requires LogFits(doc, file, time - 1)
    ensures var times := PendingTimes(SortNewest(Log(doc)));
      time !in times && forall t :: t in times ==> BackupName(file, t) in doc.backups
  {
    hide LoadLog, SortNewest, PendingTimes, BackupName, RecordOk;
    var s := SortNewest(Log(doc));
    SortNewestSorts(Log(doc));
    SameMembers(s, Log(doc));
    PendingNamed(s, file, doc.backups);
    PendingTimesFall(s);
  }

  /** A checkpoint holds the content of the moment it was taken, for good; reverting to it
      brings that content back, and a following UNDO brings back what the revert replaced if
      and only if the revert could push it, or the stack had it on top anyway. */
  lemma RevertThenUndo(doc: Doc, file: string, tag: string, time: int, user: string)
    requires CanBackup(doc, file, time, user)
    ensures var taken := Checkpoint(doc, tag);
      (taken.Some? <==> tag !in doc.checkpoints) &&
      (taken.Some? ==> taken.value == doc.(checkpoints := doc.checkpoints[tag := doc.content]))
    ensures var r := Revert(doc, file, tag, time, user);
      (r.Some? <==> tag in doc.checkpoints) &&
      (r.Some? ==> r.value.content == doc.checkpoints[tag] && r.value.checkpoints == doc.checkpoints &&
                   (Undo(r.value).Some? && Undo(r.value).value.content == doc.content
                    <==> Pushes(user) || (Stack(doc) != [] && Stack(doc)[0].content == doc.content)))
  {
    hide Log, Stack, LogOk, LogFits, Pushes, Undo;
    if tag in doc.checkpoints {
      var content := doc.checkpoints[tag];
      RewritePushes(doc, file, time, user, content);
      var doc' := Rewrite(doc, file, time, user, content);
      OkFits(doc', file, time);
      UndoPopsOrPeeks(doc', file, time);
      assert [] + Stack(doc) == Stack(doc);
    }
  }

  // ---- The code of perform_undo ---------------------------------------------------------------

  method ReadLog(text: string) returns (records: seq<Record>)
    ensures records == LoadLog(text, MAX_RECORDS)
  {
    hide ParseRecord, LineLength;
    records := [];
    var rest := text;
    while rest != "" && |records| < MAX_RECORDS
      invariant |records| <= MAX_RECORDS
      invariant LoadLog(text, MAX_RECORDS) == records + LoadLog(rest, MAX_RECORDS - |records|)
      decreases |rest|
    {
      var n := LineLength(rest, LINE_BUFFER);
      var r := ParseRecord(rest[..n]);
      if r.Some? {
        records := records + [r.value];
      }
      rest := rest[n..];
    }
  }

  lemma {:induction false} SaveLogConcat(a: seq<Record>, b: seq<Record>)
    ensures SaveLog(a + b) == SaveLog(a) + SaveLog(b)
  {
    if a == [] {
      assert a + b == b;
    } else {
      assert (a + b)[1..] == a[1..] + b;
      SaveLogConcat(a[1..], b);
    }
  }

  method WriteLog(records: array<Record>) returns (text: string)
    ensures text == SaveLog(records[..])
  {
    text := "";
    var i := 0;
    while i < records.Length
      invariant i <= records.Length
      invariant text == SaveLog(records[..i])
    {
      SaveLogConcat(records[..i], [records[i]]);
      assert records[..i + 1] == records[..i] + [records[i]];
      text := text + RecordLine(records[i]);
      i := i + 1;
    }
    assert records[..i] == records[..];
  }

  lemma FirstUnusedIs(s: seq<Record>, i: nat)
    requires i <= |s| && (forall k | 0 <= k < i :: s[k].used != 0) && (i < |s| ==> s[i].used == 0)
    ensures FirstUnused(s) == i
  {
  }

  /** Load, sort in place, take the newest unused record, mark it, write all back. */
  method PerformUndo(doc: Doc) returns (r: Option<Doc>)
    ensures r == Undo(doc)
  {
    hide LoadLog, SortNewest, FirstUnused, SaveLog, RecordLine;
    var records := ReadLog(doc.undo);
    var backups := new Record[|records|](i requires 0 <= i < |records| => records[i]);
    assert backups[..] == records;
    ExchangeSort(backups);
    ghost var s := SortNewest(Log(doc));
    var target := 0;
    while target < backups.Length && backups[target].used != 0
      invariant target <= backups.Length
      invariant forall k | 0 <= k < target :: s[k].used != 0
    {
      target := target + 1;
    }
    FirstUnusedIs(s, target);
    if target == backups.Length || backups[target].name !in doc.backups {
      r := None;
    } else {
      var content := doc.backups[backups[target].name];
      backups[target] := backups[target].(used := 1);
      assert backups[..] == s[target := s[target].(used := 1)];
      var text := WriteLog(backups);
      r := Some(doc.(content := content, undo := text));
    }
  }
}
