/** The storage server's file table and its text form, one comma-separated line a file. */
module Metadata {
  import opened Text
  import opened Decimal
  import Acl

  const LINE_BUFFER: nat := 2048
  const MAX_FILES: nat := 1024
  const NAME_SIZE: nat := 255
  const USER_SIZE: nat := 63

  datatype Meta = Meta(
    name: string, size: int, words: int, created: int, modified: int, accessed: int,
    accessedBy: string, owner: string, folder: string, acl: seq<Acl.Entry>)

  // ---- Printing -------------------------------------------------------------------------------

  /** An empty field is printed as a dash. */
  function OrDash(s: string): string {
    if s == "" then "-" else s
  }

  function Fields(m: Meta): (fs: seq<string>)
    ensures |fs| == 10
  {
    [m.name, Show(m.size), Show(m.words), Show(m.created), Show(m.modified), Show(m.accessed),
     OrDash(m.accessedBy), OrDash(m.owner), OrDash(m.folder), Show(|m.acl|)]
  }

  /** Each field with a comma after it, then the rest of the line. */
  function SaveCells(fs: seq<string>, tail: string): string {
    if fs == [] then tail else fs[0] + "," + SaveCells(fs[1..], tail)
  }

  function SaveAcl(acl: seq<Acl.Entry>): string {
    if acl == [] then "" else acl[0].user + ":" + Show(acl[0].permission) + ";" + SaveAcl(acl[1..])
  }

  function SaveRow(m: Meta): string {
    SaveCells(Fields(m), SaveAcl(m.acl)) + "\n"
  }

  function Save(table: seq<Meta>): string {
    if table == [] then "" else SaveRow(table[0]) + Save(table[1..])
  }

  // ---- Parsing --------------------------------------------------------------------------------

  /** Position of the first `c`, or the length. */
  function Find(s: string, c: char): (n: nat)
    ensures n <= |s| && (n < |s| ==> s[n] == c)
    ensures c !in s[..n]
  {
    if s == "" || s[0] == c then 0
    else
      assert s[..1 + Find(s[1..], c)] == [s[0]] + s[1..][..Find(s[1..], c)];
      1 + Find(s[1..], c)
  }

  function SkipChar(s: string, c: char): (r: string)
    ensures |r| <= |s| && (r != "" ==> r[0] != c)
  {
    if s != "" && s[0] == c then SkipChar(s[1..], c) else s
  }

  /** `strtok_r` with one separator: the next non-empty token and what follows it. */
  function NextCell(s: string, c: char): (r: (Option<string>, string))
    ensures r.0.Some? ==> |r.1| < |s|
  {
    var t := SkipChar(s, c);
    if t == "" then (None, "")
    else
      var n := Find(t, c);
      (Some(t[..n]), if n < |t| then t[n + 1..] else "")
  }

  /** The next `k` tokens and the rest of the line. */
  function Cells(s: string, k: nat): (r: (seq<Option<string>>, string))
    ensures |r.0| == k
    decreases k
  {
    if k == 0 then ([], s)
    else
      var (cell, rest) := NextCell(s, ',');
      var (cells, tail) := Cells(rest, k - 1);
      ([cell] + cells, tail)
  }

  /** The `user:permission` entries between semicolons; pieces without a colon are skipped. */
  function LoadAcl(s: string, room: nat): (acl: seq<Acl.Entry>)
    ensures |acl| <= room
    decreases |s|
  {
    var (cell, rest) := NextCell(s, ';');
    if room == 0 || cell.None? then []
    else
      var n := Find(cell.value, ':');
      if n == |cell.value| then LoadAcl(rest, room)
      else [Acl.Entry(Capped(cell.value[..n], USER_SIZE), Atol(cell.value[n + 1..]))] + LoadAcl(rest, room - 1)
  }

  /** A missing cell or a dash is an empty field. */
  function FieldOf(cell: Option<string>, size: nat): string {
    if cell.None? || cell.value == "-" then "" else Capped(cell.value, size)
  }

  function NumberOf(cell: Option<string>): int {
    if cell.None? then 0 else Atol(cell.value)
  }

  /** One line without its line break; `None` when one of the first six fields is missing. */
  function LoadRow(line: string): Option<Meta> {
    var (c, tail) := Cells(line, 10);
    if exists k | 0 <= k < 6 :: c[k].None? then None
    else Some(Meta(
      Capped(c[0].value, NAME_SIZE), NumberOf(c[1]), NumberOf(c[2]), NumberOf(c[3]), NumberOf(c[4]), NumberOf(c[5]),
      FieldOf(c[6], USER_SIZE), FieldOf(c[7], USER_SIZE), FieldOf(c[8], NAME_SIZE),
      if NumberOf(c[9]) > 0 then LoadAcl(tail, Acl.MAX_ENTRIES) else []))
  }

  /** Number of characters one `fgets` takes. */
  function LineLength(s: string): (n: nat)
    ensures n <= |s| && n < LINE_BUFFER && (s != "" ==> n > 0)
  {
    var n := Find(s, '\n');
    if n < |s| && n + 1 < LINE_BUFFER then n + 1 else if |s| < LINE_BUFFER then |s| else LINE_BUFFER - 1
  }

  function TrimLine(line: string): string {
    line[..Find(line, '\n')]
  }

  function Load(text: string, room: nat): (table: seq<Meta>)
    ensures |table| <= room
    decreases |text|
  {
    if text == "" || room == 0 then []
    else
      var n := LineLength(text);
      var row := LoadRow(TrimLine(text[..n]));
      if row.Some? then [row.value] + Load(text[n..], room - 1) else Load(text[n..], room)
  }

  // ---- What fits the structs, and what survives the text form ---------------------------------

  predicate EntryFits(e: Acl.Entry) {
    |e.user| <= USER_SIZE && -0x8000_0000 <= e.permission < 0x8000_0000
  }

  /** The row fits the fixed-size fields of the C struct. */
  predicate Fits(m: Meta) {
    |m.name| <= NAME_SIZE && |m.accessedBy| <= USER_SIZE && |m.owner| <= USER_SIZE && |m.folder| <= NAME_SIZE &&
    Is64Bit(m.size) && Is64Bit(m.words) && Is64Bit(m.created) && Is64Bit(m.modified) && Is64Bit(m.accessed) &&
    |m.acl| <= Acl.MAX_ENTRIES && forall e :: e in m.acl ==> EntryFits(e)
  }

  predicate PlainField(s: string) {
    ',' !in s && '\n' !in s
  }

  predicate PlainUser(user: string) {
    ';' !in user && ':' !in user && '\n' !in user
  }

  /** No separator inside a field, no literal dash, and a name. */
  predicate Separable(m: Meta) {
    m.name != "" && PlainField(m.name) &&
    PlainField(m.accessedBy) && m.accessedBy != "-" && PlainField(m.owner) && m.owner != "-" &&
    PlainField(m.folder) && m.folder != "-" && forall e :: e in m.acl ==> PlainUser(e.user)
  }

  // ---- Round trip -----------------------------------------------------------------------------

  lemma FindIs(a: string, c: char, b: string)
    requires c !in a
    ensures Find(a + [c] + b, c) == |a|
  {
    if a != "" {
      assert (a + [c] + b)[1..] == a[1..] + [c] + b;
      FindIs(a[1..], c, b);
    }
  }

  lemma NextCellIs(f: string, c: char, rest: string)
    requires f != "" && c !in f
    ensures NextCell(f + [c] + rest, c) == (Some(f), rest)
  {
    var s := f + [c] + rest;
    assert s[0] == f[0] && SkipChar(s, c) == s;
    FindIs(f, c, rest);
    assert s[..|f|] == f && s[|f| + 1..] == rest;
  }

  function Somes(fs: seq<string>): (r: seq<Option<string>>)
    ensures |r| == |fs| && forall k | 0 <= k < |fs| :: r[k] == Some(fs[k])
  {
    if fs == [] then [] else [Some(fs[0])] + Somes(fs[1..])
  }

  lemma {:induction false} CellsOfSave(fs: seq<string>, tail: string)
    requires forall k | 0 <= k < |fs| :: fs[k] != "" && ',' !in fs[k]
    ensures Cells(SaveCells(fs, tail), |fs|) == (Somes(fs), tail)
  {
    if fs != [] {
      NextCellIs(fs[0], ',', SaveCells(fs[1..], tail));
      CellsOfSave(fs[1..], tail);
    }
  }

  /** One printed entry is a token up to its semicolon, and parts at its colon. */
  lemma EntryCell(e: Acl.Entry, rest: string)
    requires PlainUser(e.user) && EntryFits(e)
    ensures var cell := e.user + ":" + Show(e.permission);
      NextCell(cell + ";" + rest, ';') == (Some(cell), rest) &&
      Find(cell, ':') == |e.user| < |cell| && cell[..|e.user|] == e.user && Atol(cell[|e.user| + 1..]) == e.permission
  {
    hide Atol, NextCell, Find;
    var cell := e.user + ":" + Show(e.permission);
    NextCellIs(cell, ';', rest);
    FindIs(e.user, ':', Show(e.permission));
    assert cell == e.user + [':'] + Show(e.permission);
    assert cell[..|e.user|] == e.user && cell[|e.user| + 1..] == Show(e.permission);
    AtolOfShow(e.permission);
  }

  lemma {:induction false} LoadOfSaveAcl(acl: seq<Acl.Entry>, room: nat)
    requires |acl| <= room && forall e :: e in acl ==> PlainUser(e.user) && EntryFits(e)
    ensures LoadAcl(SaveAcl(acl), room) == acl
  {
    hide Atol, Show, NextCell, Find, PlainUser;
    if acl != [] {
      var e := acl[0];
      EntryCell(e, SaveAcl(acl[1..]));
      LoadOfSaveAcl(acl[1..], room - 1);
      assert Capped(e.user, USER_SIZE) == e.user;
    }
  }

  lemma FieldsPlain(m: Meta)
    requires Separable(m)
    ensures forall k | 0 <= k < 10 :: Fields(m)[k] != "" && PlainField(Fields(m)[k])
  {
  }

  /** One line read back is the row it was printed from. */
  lemma LoadOfSaveRow(m: Meta)
    requires Fits(m) && Separable(m)
    ensures LoadRow(SaveCells(Fields(m), SaveAcl(m.acl))) == Some(m)
  {
    hide Show, Atol, Cells, SaveCells, LoadAcl, SaveAcl;
    FieldsPlain(m);
    CellsOfSave(Fields(m), SaveAcl(m.acl));
    LoadOfSaveAcl(m.acl, Acl.MAX_ENTRIES);
    AtolOfShow(m.size);
    AtolOfShow(m.words);
    AtolOfShow(m.created);
    AtolOfShow(m.modified);
    AtolOfShow(m.accessed);
    AtolOfShow(|m.acl|);
  }

  // ---- Lines ----------------------------------------------------------------------------------

  lemma {:induction false} SaveCellsShape(fs: seq<string>, tail: string)
    requires '\n' !in tail && forall k | 0 <= k < |fs| :: '\n' !in fs[k]
    ensures '\n' !in SaveCells(fs, tail)
  {
    if fs != [] {
      SaveCellsShape(fs[1..], tail);
    }
  }

  lemma {:induction false} SaveAclShape(acl: seq<Acl.Entry>)
    requires forall e :: e in acl ==> PlainUser(e.user) && EntryFits(e)
    ensures '\n' !in SaveAcl(acl)
  {
    if acl != [] {
      SaveAclShape(acl[1..]);
    }
  }

  lemma {:induction false} SaveAclLength(acl: seq<Acl.Entry>)
    requires forall e :: e in acl ==> EntryFits(e)
    ensures |SaveAcl(acl)| <= 76 * |acl|
  {
    if acl != [] {
      assert EntryFits(acl[0]);
      ShowLength(acl[0].permission);
      SaveAclLength(acl[1..]);
    }
  }

  /** Every printed line fits the reader's line buffer, whatever the row holds. */
  lemma RowFitsLine(m: Meta)
    requires Fits(m)
    ensures |SaveRow(m)| < LINE_BUFFER
  {
    hide SaveCells, SaveAcl, Show;
    var fs, tail := Fields(m), SaveAcl(m.acl);
    SaveAclLength(m.acl);
    ShowLength(m.size);
    ShowLength(m.words);
    ShowLength(m.created);
    ShowLength(m.modified);
    ShowLength(m.accessed);
    ShowLength(|m.acl|);
    CellsLength(fs, tail, [NAME_SIZE, 20, 20, 20, 20, 20, USER_SIZE, USER_SIZE, NAME_SIZE, 20]);
    SumOfTen();
  }

  function Sum(ns: seq<nat>): nat {
    if ns == [] then 0 else ns[0] + Sum(ns[1..])
  }

  lemma {:induction false} CellsLength(fs: seq<string>, tail: string, bounds: seq<nat>)
    requires |fs| == |bounds| && forall k | 0 <= k < |fs| :: |fs[k]| <= bounds[k]
    ensures |SaveCells(fs, tail)| <= Sum(bounds) + |fs| + |tail|
  {
    if fs != [] {
      CellsLength(fs[1..], tail, bounds[1..]);
    }
  }

  lemma SumOfTen()
    ensures Sum([NAME_SIZE, 20, 20, 20, 20, 20, USER_SIZE, USER_SIZE, NAME_SIZE, 20]) == 756
  {
    SumCons(NAME_SIZE, [20, 20, 20, 20, 20, USER_SIZE, USER_SIZE, NAME_SIZE, 20]);
    SumCons(20, [20, 20, 20, 20, USER_SIZE, USER_SIZE, NAME_SIZE, 20]);
    SumCons(20, [20, 20, 20, USER_SIZE, USER_SIZE, NAME_SIZE, 20]);
    SumCons(20, [20, 20, USER_SIZE, USER_SIZE, NAME_SIZE, 20]);
    SumCons(20, [20, USER_SIZE, USER_SIZE, NAME_SIZE, 20]);
    SumCons(20, [USER_SIZE, USER_SIZE, NAME_SIZE, 20]);
    SumCons(USER_SIZE, [USER_SIZE, NAME_SIZE, 20]);
    SumCons(USER_SIZE, [NAME_SIZE, 20]);
    SumCons(NAME_SIZE, [20]);
    SumCons(20, []);
  }

  lemma SumCons(n: nat, ns: seq<nat>)
    ensures Sum([n] + ns) == n + Sum(ns)
  {
    assert ([n] + ns)[1..] == ns;
  }

  lemma RowIsLine(m: Meta, rest: string)
    requires Fits(m) && Separable(m)
    ensures LineLength(SaveRow(m) + rest) == |SaveRow(m)|
    ensures TrimLine(SaveRow(m)) == SaveCells(Fields(m), SaveAcl(m.acl))
  {
    hide SaveCells, SaveAcl, Fields;
    var body := SaveCells(Fields(m), SaveAcl(m.acl));
    FieldsPlain(m);
    SaveAclShape(m.acl);
    SaveCellsShape(Fields(m), SaveAcl(m.acl));
    RowFitsLine(m);
    FindIs(body, '\n', rest);
    assert body + ['\n'] + rest == SaveRow(m) + rest;
    FindIs(body, '\n', "");
    assert body + ['\n'] + "" == SaveRow(m);
    assert SaveRow(m)[..|body|] == body;
  }

  lemma {:induction false} LoadOfSave(table: seq<Meta>, room: nat)
    requires |table| <= room && forall m :: m in table ==> Fits(m) && Separable(m)
    ensures Load(Save(table), room) == table
  {
    hide SaveRow, LoadRow, Fits, Separable, LineLength, TrimLine;
    if table != [] {
      var m, rest := table[0], Save(table[1..]);
      RowIsLine(m, rest);
      LoadOfSaveRow(m);
      assert (SaveRow(m) + rest)[..|SaveRow(m)|] == SaveRow(m);
      assert (SaveRow(m) + rest)[|SaveRow(m)|..] == rest;
      RowNotEmpty(m);
      LoadOfSave(table[1..], room - 1);
    }
  }

  lemma RowNotEmpty(m: Meta)
    ensures SaveRow(m) != ""
  {
  }

  // ---- What cannot come back ------------------------------------------------------------------

  lemma {:induction false} CellsPlain(s: string, k: nat)
    requires '\n' !in s
    ensures var (cells, tail) := Cells(s, k);
      (forall i | 0 <= i < k && cells[i].Some? :: cells[i].value != "" && PlainField(cells[i].value)) && '\n' !in tail
    decreases k
  {
    if k > 0 {
      NextCellPlain(s, ',');
      CellsPlain(NextCell(s, ',').1, k - 1);
    }
  }

  lemma SkipPart(s: string, c: char)
    ensures forall x :: x in SkipChar(s, c) ==> x in s
  {
    if s != "" && s[0] == c {
      SkipPart(s[1..], c);
    }
  }

  lemma NextCellPlain(s: string, c: char)
    requires '\n' !in s
    ensures var (cell, rest) := NextCell(s, c);
      '\n' !in rest && (cell.Some? ==> cell.value != "" && c !in cell.value && '\n' !in cell.value)
  {
    SkipPart(s, c);
  }

  lemma {:induction false} LoadAclPlain(s: string, room: nat)
    requires '\n' !in s
    ensures forall e :: e in LoadAcl(s, room) ==> PlainUser(e.user)
    decreases |s|
  {
    var (cell, rest) := NextCell(s, ';');
    NextCellPlain(s, ';');
    if room > 0 && cell.Some? {
      var n := Find(cell.value, ':');
      var user := cell.value[..n];
      assert PlainUser(Capped(user, USER_SIZE));
      LoadAclPlain(rest, if n == |cell.value| then room else room - 1);
    }
  }

  /** Whatever a line holds, the row read from it has separator-free fields. */
  lemma LoadedIsSeparable(line: string)
    requires '\n' !in line && LoadRow(line).Some?
    ensures Separable(LoadRow(line).value)
  {
    hide Cells, LoadAcl, Atol;
    var (c, tail) := Cells(line, 10);
    CellsPlain(line, 10);
    LoadAclPlain(tail, Acl.MAX_ENTRIES);
    assert forall k | 0 <= k < 6 :: c[k].Some?;
    FieldSeparable(c[6], USER_SIZE);
    FieldSeparable(c[7], USER_SIZE);
    FieldSeparable(c[8], NAME_SIZE);
  }

  lemma FieldSeparable(cell: Option<string>, size: nat)
    requires size > 1 && (cell.Some? ==> PlainField(cell.value))
    ensures PlainField(FieldOf(cell, size)) && FieldOf(cell, size) != "-"
  {
    if cell.Some? && |cell.value| > size {
      assert |Capped(cell.value, size)| > 1;
    }
  }

  lemma {:induction false} LoadedRowsSeparable(text: string, room: nat)
    ensures forall m :: m in Load(text, room) ==> Separable(m)
    decreases |text|
  {
    hide LoadRow, Separable, LineLength;
    if text != "" && room > 0 {
      var n := LineLength(text);
      var line := TrimLine(text[..n]);
      assert '\n' !in line;
      if LoadRow(line).Some? {
        LoadedIsSeparable(line);
        LoadedRowsSeparable(text[n..], room - 1);
      } else {
        LoadedRowsSeparable(text[n..], room);
      }
    }
  }

  /** Metadata round trip: a file table comes back from its text exactly when no field holds
      a separator, no name is empty and no user or folder is a literal dash. */
  lemma RoundTripExactly(table: seq<Meta>)
    requires |table| <= MAX_FILES && forall m :: m in table ==> Fits(m)
    ensures Load(Save(table), MAX_FILES) == table <==> forall m :: m in table ==> Separable(m)
  {
    if forall m :: m in table ==> Separable(m) {
      LoadOfSave(table, MAX_FILES);
    } else {
      LoadedRowsSeparable(Save(table), MAX_FILES);
    }
  }
}
