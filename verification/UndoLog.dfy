/** The backup log of a file: the records as text, the exchange sort, and what UNDO does. */
module UndoLog {
  import opened Text
  import opened Decimal

  const MAX_RECORDS: nat := 1000
  const LINE_BUFFER: nat := 1024
  const NAME_FIELD: nat := 255
  const USER_FIELD: nat := 127

  /** One line of `<file>.undo` as UNDO holds it in memory. */
  datatype Record = Record(time: int, name: string, user: string, used: int)

  // ---- Lines and fields -----------------------------------------------------------------------

  /** Number of characters one `fgets` with a buffer of `size` takes. */
  function LineLength(s: string, size: nat): (n: nat)
    requires size > 1
    ensures n <= |s| && n < size
    ensures s != "" ==> n > 0
  {
    if s == "" then 0
    else if s[0] == '\n' || size == 2 then 1
    else 1 + LineLength(s[1..], size - 1)
  }

  /** `%<max>[^|]`: the longest prefix without a bar, at most `max` characters. */
  function Field(s: string, max: nat): (f: string)
    ensures |f| <= |s| && |f| <= max && f == s[..|f|]
    ensures forall k | 0 <= k < |f| :: f[k] != '|'
    ensures |f| < |s| && |f| < max ==> s[|f|] == '|'
  {
    if s == "" || max == 0 || s[0] == '|' then "" else [s[0]] + Field(s[1..], max - 1)
  }

  /** A bar and a non-empty field after it; the field and the rest. */
  function BarField(s: string, max: nat): Option<(string, string)> {
    if s == "" || s[0] != '|' then None
    else
      var f := Field(s[1..], max);
      if f == "" then None else Some((f, s[1..][|f|..]))
  }

  predicate Is32Bit(n: int) {
    -0x8000_0000 <= n < 0x8000_0000
  }

  /** `%d`: a number too long for 64 bits is cut to the nearest one that fits, and the low
      32 bits of it are kept. */
  function AsInt(n: int): (r: int)
    ensures Is32Bit(r) && (Is32Bit(n) ==> r == n)
  {
    var long := if n < -0x8000_0000_0000_0000 then -0x8000_0000_0000_0000
                else if n >= 0x8000_0000_0000_0000 then 0x7FFF_FFFF_FFFF_FFFF
                else n;
    var low := long % 0x1_0000_0000;
    if low < 0x8000_0000 then low else low - 0x1_0000_0000
  }

  /** The optional `|%d` at the end of a line. */
  function UsedFlag(s: string): int {
    if s == "" || s[0] != '|' then 0 else AsInt(Atol(s[1..]))
  }

  /** `sscanf(line, "%ld|%255[^|]|%127[^|]|%d")` with at least three conversions. */
  function ParseRecord(line: string): Option<Record> {
    var time := ScanNumber(line);
    if time.None? then None
    else
      var name := BarField(time.value.1, NAME_FIELD);
      if name.None? then None
      else
        var user := BarField(name.value.1, USER_FIELD);
        if user.None? then None
        else Some(Record(time.value.0, name.value.0, user.value.0, UsedFlag(user.value.1)))
  }

  /** The records of the first lines that parse, at most `room` of them. */
  function LoadLog(text: string, room: nat): (records: seq<Record>)
    ensures |records| <= room
    decreases |text|
  {
    if text == "" || room == 0 then []
    else
      var n := LineLength(text, LINE_BUFFER);
      var r := ParseRecord(text[..n]);
      if r.Some? then [r.value] + LoadLog(text[n..], room - 1) else LoadLog(text[n..], room)
  }

  /** The line a backup appends; it carries no used flag. */
  function BackupLine(time: int, name: string, user: string): string {
    Show(time) + "|" + name + "|" + user + "\n"
  }

  /** The line UNDO rewrites for a record. */
  function RecordLine(r: Record): string {
    Show(r.time) + "|" + r.name + "|" + r.user + "|" + Show(r.used) + "\n"
  }

  function SaveLog(records: seq<Record>): string {
    if records == [] then "" else RecordLine(records[0]) + SaveLog(records[1..])
  }

  // ---- Text round trip ------------------------------------------------------------------------

  predicate EndsLine(s: string) {
    s != "" && s[|s| - 1] == '\n'
  }

  predicate OneLine(s: string) {
    EndsLine(s) && |s| < LINE_BUFFER && forall k | 0 <= k < |s| - 1 :: s[k] != '\n'
  }

  lemma LineLengthIs(line: string, rest: string, size: nat)
    requires EndsLine(line) && |line| < size && forall k | 0 <= k < |line| - 1 :: line[k] != '\n'
    ensures LineLength(line + rest, size) == |line|
  {
    if |line| > 1 {
      assert (line + rest)[1..] == line[1..] + rest;
      LineLengthIs(line[1..], rest, size - 1);
    }
  }

  lemma LoadLine(line: string, rest: string, room: nat)
    requires OneLine(line) && room > 0
    ensures LoadLog(line + rest, room) ==
            var r := ParseRecord(line);
            if r.Some? then [r.value] + LoadLog(rest, room - 1) else LoadLog(rest, room)
  {
    LineLengthIs(line, rest, LINE_BUFFER);
    assert (line + rest)[..|line|] == line && (line + rest)[|line|..] == rest;
  }

  lemma FieldIs(f: string, rest: string, max: nat)
    requires '|' !in f && |f| <= max && (rest == "" || rest[0] == '|' || |f| == max)
    ensures Field(f + rest, max) == f
  {
    if f == "" {
      assert f + rest == rest;
    } else {
      assert (f + rest)[1..] == f[1..] + rest;
      FieldIs(f[1..], rest, max - 1);
    }
  }

  predicate NameOk(name: string) {
    0 < |name| <= NAME_FIELD && '|' !in name && '\n' !in name
  }

  /** The names the handshake takes: `%127s` stops at white space. */
  predicate Accepted(user: string) {
    0 < |user| <= USER_FIELD && forall k | 0 <= k < |user| :: !IsSpace(user[k])
  }

  lemma BarFieldIs(f: string, rest: string, max: nat)
    requires f != "" && '|' !in f && |f| <= max && (rest == "" || rest[0] == '|' || |f| == max)
    ensures BarField("|" + f + rest, max) == Some((f, rest))
  {
    var s := "|" + f + rest;
    assert s[1..] == f + rest;
    FieldIs(f, rest, max);
    assert (f + rest)[|f|..] == rest;
  }

  /** A line that starts with a time and a name: what the user field and the rest give. */
  lemma ParseFields(time: int, name: string, user: string, rest: string)
    requires NameOk(name) && 0 < |user| <= USER_FIELD && '|' !in user
    requires rest == "" || rest[0] == '|' || |user| == USER_FIELD
    ensures ParseRecord(Show(time) + ("|" + name + ("|" + user + rest))) ==
            Some(Record(time, name, user, UsedFlag(rest)))
  {
    hide Show, ScanNumber, BarField, UsedFlag;
    var afterName := "|" + user + rest;
    ScanOfShow(time, "|" + name + afterName);
    BarFieldIs(name, afterName, NAME_FIELD);
    BarFieldIs(user, rest, USER_FIELD);
  }

  // ---- What the reader makes of a user name ---------------------------------------------------

  /** The part of a name before its first bar. */
  function Head(user: string): (f: string)
    ensures |f| <= |user| && f == user[..|f|] && '|' !in f
    ensures |f| < |user| ==> user[|f|] == '|'
  {
    Field(user, |user|)
  }

  /** A line whose user begins with a bar has no user field, so it gives no record. */
  predicate Listed(user: string) {
    user != "" && user[0] != '|'
  }

  /** The user as the reader stores it: up to a bar, or with the line break behind it unless
      it fills the field. */
  function Stored(user: string): string {
    var f := Head(user);
    if |f| < |user| then f else if |user| < USER_FIELD then user + "\n" else user
  }

  /** The used flag the reader finds: a number behind the bar. */
  function FlagIn(user: string): int {
    var f := Head(user);
    if |f| < |user| then UsedFlag(user[|f|..] + "\n") else 0
  }

  /** Names under which a used flag survives a rewrite of the log. */
  predicate Keeps(user: string) {
    |user| == USER_FIELD || '|' in user
  }

  /** Names under which a backup can be undone at all. */
  predicate Pushes(user: string) {
    Listed(user) && FlagIn(user) == 0
  }

  lemma NoBar(user: string)
    ensures |Head(user)| < |user| <==> '|' in user
    ensures '|' !in user ==> Head(user) == user
  {
    if '|' in user && Head(user) == user {
      assert false;
    }
  }

  /** What UNDO reads from a backup line. */
  lemma ParseBackupLine(time: int, name: string, user: string)
    requires NameOk(name) && Accepted(user) && Is64Bit(time)
    ensures OneLine(BackupLine(time, name, user))
    ensures ParseRecord(BackupLine(time, name, user)) ==
            if Listed(user) then Some(Record(time, name, Stored(user), FlagIn(user))) else None
  {
    hide Show, ParseRecord, IsSpace;
    NoBreak(user);
    LineShape(time, name, user, "\n");
    var f := Head(user);
    if !Listed(user) {
      NoUser(time, name, user + "\n");
      Bracket(Show(time), "|", name, user, "\n");
      Bracket(Show(time), "|", name, user + "\n", "");
      assert user + "\n" + "" == user + "\n";
    } else if |f| < |user| {
      var rest := user[|f|..] + "\n";
      ParseFields(time, name, f, rest);
      Bracket(Show(time), "|", name, f, rest);
      assert user + "\n" == f + rest;
      Bracket(Show(time), "|", name, user, "\n");
    } else if |user| < USER_FIELD {
      NoBar(user);
      ParseFields(time, name, user + "\n", "");
      Bracket(Show(time), "|", name, user + "\n", "");
      assert user + "\n" + "" == user + "\n";
      Bracket(Show(time), "|", name, user, "\n");
    } else {
      NoBar(user);
      ParseFields(time, name, user, "\n");
      Bracket(Show(time), "|", name, user, "\n");
    }
  }

  lemma NoBreak(user: string)
    requires Accepted(user)
    ensures '\n' !in user
  {
  }

  /** Two bars in a row leave the user field empty. */
  lemma NoUser(time: int, name: string, user: string)
    requires NameOk(name) && user != "" && user[0] == '|'
    ensures ParseRecord(Show(time) + ("|" + name + ("|" + user + ""))) == None
  {
    hide Show, ScanNumber, UsedFlag;
    var afterName := "|" + user + "";
    ScanOfShow(time, "|" + name + afterName);
    hide BarField;
    BarFieldIs(name, afterName, NAME_FIELD);
    assert BarField(afterName, USER_FIELD) == None by { EmptyField(user); }
  }

  lemma EmptyField(user: string)
    requires user != "" && user[0] == '|'
    ensures BarField("|" + user + "", USER_FIELD) == None
  {
    assert ("|" + user + "")[1..] == user;
  }

  lemma Bracket(a: string, bar: string, b: string, c: string, d: string)
    ensures a + (bar + b + (bar + c + d)) == a + bar + b + bar + (c + d) == a + bar + b + bar + c + d
  {
  }

  lemma LineShape(time: int, name: string, user: string, rest: string)
    requires NameOk(name) && |user| <= USER_FIELD && '\n' !in user && Is64Bit(time)
    requires EndsLine(rest) && |rest| <= 25 && forall k | 0 <= k < |rest| - 1 :: rest[k] != '\n'
    ensures OneLine(Show(time) + "|" + name + "|" + user + rest)
  {
    ShowLength(time);
  }

  /** A record as it stands in a log: its user field holds no bar, and a line break only at
      its end. */
  predicate RecordOk(r: Record) {
    NameOk(r.name) && Is64Bit(r.time) && Is32Bit(r.used) &&
    0 < |r.user| <= USER_FIELD && '|' !in r.user && '\n' !in r.user[..|r.user| - 1]
  }

  lemma StoredOk(user: string)
    requires Accepted(user) && Listed(user)
    ensures var u := Stored(user);
      0 < |u| <= USER_FIELD && '|' !in u && '\n' !in u[..|u| - 1] && (EndsLine(u) <==> !Keeps(user))
  {
    hide IsSpace;
    NoBreak(user);
    NoBar(user);
  }

  predicate KeepsFlag(r: Record) {
    !EndsLine(r.user)
  }

  /** What is left of a record after UNDO has rewritten it and the next UNDO has read it. */
  function Reload(r: Record): Record {
    if KeepsFlag(r) then r else r.(used := 0)
  }

  /** A record without the line break keeps everything through a rewrite. */
  lemma ParseWholeRecord(r: Record)
    requires RecordOk(r) && KeepsFlag(r)
    ensures OneLine(RecordLine(r)) && ParseRecord(RecordLine(r)) == Some(r)
  {
    hide Show, ScanNumber, BarField, ParseRecord, Atol;
    var flag := "|" + Show(r.used) + "\n";
    ShowLength(r.used);
    assert r.user == r.user[..|r.user| - 1] + [r.user[|r.user| - 1]];
    LineShape(r.time, r.name, r.user, flag);
    ParseFields(r.time, r.name, r.user, flag);
    assert flag[1..] == Show(r.used) + "\n";
    AtolOfLine(r.used);
    Bracket(Show(r.time), "|", r.name, r.user, flag);
    assert RecordLine(r) == Show(r.time) + "|" + r.name + "|" + r.user + flag;
  }

  lemma AtolOfLine(n: int)
    ensures Atol(Show(n) + "\n") == n
  {
    ScanOfShow(n, "\n");
  }

  /** Any other record falls apart into the line it came from and one that does not parse. */
  lemma RecordFallsApart(r: Record)
    requires RecordOk(r) && !KeepsFlag(r)
    ensures var first := Show(r.time) + "|" + r.name + "|" + r.user; var flag := "|" + Show(r.used) + "\n";
      RecordLine(r) == first + flag && OneLine(first) && ParseRecord(first) == Some(r.(used := 0)) &&
      OneLine(flag) && ParseRecord(flag) == None
  {
    hide Show, BarField, ParseRecord;
    var user := r.user[..|r.user| - 1];
    assert r.user == user + "\n";
    ShowLength(r.used);
    NoNumber("|" + Show(r.used) + "\n");
    LineShape(r.time, r.name, user, "\n");
    Bracket(Show(r.time), "|", r.name, user, "\n");
    ParseFields(r.time, r.name, r.user, "");
    Bracket(Show(r.time), "|", r.name, r.user, "");
    assert r.user + "" == r.user;
  }

  lemma NoNumber(s: string)
    requires s != "" && s[0] == '|'
    ensures ParseRecord(s) == None
  {
    assert SkipSpace(s) == s && DigitRun(s) == 0;
  }

  lemma SkipLine(line: string, rest: string, room: nat)
    requires OneLine(line) && ParseRecord(line) == None
    ensures LoadLog(line + rest, room) == LoadLog(rest, room)
  {
    hide ParseRecord, OneLine;
    if room > 0 {
      LoadLine(line, rest, room);
    }
  }

  lemma LoadRecordLine(r: Record, rest: string, room: nat)
    requires RecordOk(r) && room > 0
    ensures LoadLog(RecordLine(r) + rest, room) == [Reload(r)] + LoadLog(rest, room - 1)
  {
    hide Show, ParseRecord, RecordLine, LoadLog, OneLine, RecordOk;
    if KeepsFlag(r) {
      ParseWholeRecord(r);
      LoadLine(RecordLine(r), rest, room);
    } else {
      var first, flag := Show(r.time) + "|" + r.name + "|" + r.user, "|" + Show(r.used) + "\n";
      RecordFallsApart(r);
      assert RecordLine(r) + rest == first + (flag + rest);
      LoadLine(first, flag + rest, room);
      SkipLine(flag, rest, room - 1);
    }
  }

  function ReloadAll(records: seq<Record>): (rs: seq<Record>)
    ensures |rs| == |records| && forall k | 0 <= k < |rs| :: rs[k] == Reload(records[k])
  {
    if records == [] then [] else [Reload(records[0])] + ReloadAll(records[1..])
  }

  lemma LoadNothing(room: nat)
    ensures LoadLog("", room) == []
  {
  }

  /** Reading back what UNDO wrote gives the records with the used flag lost wherever the
      user field carries the line break. */
  lemma {:induction false} LoadOfSave(records: seq<Record>, room: nat)
    requires |records| <= room && forall k | 0 <= k < |records| :: RecordOk(records[k])
    ensures LoadLog(SaveLog(records), room) == ReloadAll(records)
  {
    hide LoadLog, RecordLine, Reload, RecordOk;
    if records == [] {
      LoadNothing(room);
    } else {
      LoadRecordLine(records[0], SaveLog(records[1..]), room);
      LoadOfSave(records[1..], room - 1);
    }
  }

  lemma LineLengthAppend(s: string, t: string, size: nat)
    requires EndsLine(s) && size > 1
    ensures LineLength(s + t, size) == LineLength(s, size)
  {
    assert (s + t)[0] == s[0];
    if s[0] != '\n' && size > 2 {
      assert (s + t)[1..] == s[1..] + t;
      LineLengthAppend(s[1..], t, size - 1);
    }
  }

  /** A full log takes no more. */
  lemma {:induction false} LoadOfFull(text: string, line: string, room: nat)
    requires (text == "" || EndsLine(text)) && |LoadLog(text, room)| == room
    ensures LoadLog(text + line, room) == LoadLog(text, room)
    decreases |text|
  {
    hide ParseRecord;
    if text != "" && room > 0 {
      var n := LineLength(text, LINE_BUFFER);
      LineLengthAppend(text, line, LINE_BUFFER);
      assert (text + line)[..n] == text[..n] && (text + line)[n..] == text[n..] + line;
      LoadOfFull(text[n..], line, if ParseRecord(text[..n]).Some? then room - 1 else room);
    }
  }

  /** A backup appends one record to what is read. */
  lemma {:induction false} LoadOfAppend(text: string, line: string, room: nat)
    requires (text == "" || EndsLine(text)) && OneLine(line) && |LoadLog(text, room)| < room
    ensures LoadLog(text + line, room) ==
            LoadLog(text, room) + (var r := ParseRecord(line); if r.Some? then [r.value] else [])
    decreases |text|
  {
    hide ParseRecord, OneLine;
    if text == "" {
      assert text + line == line + "";
      LoadLine(line, "", room);
    } else {
      var n := LineLength(text, LINE_BUFFER);
      LineLengthAppend(text, line, LINE_BUFFER);
      assert (text + line)[..n] == text[..n] && (text + line)[n..] == text[n..] + line;
      var r := ParseRecord(text[..n]);
      LoadOfAppend(text[n..], line, if r.Some? then room - 1 else room);
    }
  }
}
