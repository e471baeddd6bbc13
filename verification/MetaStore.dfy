/** The storage server's file table: a global array shifted and updated in place, written
    to its text file after every change. */
module MetaStore {
  import opened Text
  import Acl
  import opened Metadata

  // ---- The table as a list --------------------------------------------------------------------

  /** First row of a file, or the number of rows. */
  function RowOf(t: seq<Meta>, name: string): (i: nat)
    ensures i <= |t|
    ensures i < |t| ==> t[i].name == name
    ensures forall k | 0 <= k < i :: t[k].name != name
  {
    if t == [] || t[0].name == name then 0 else 1 + RowOf(t[1..], name)
  }

  /** The row of a file that was just created empty. */
  function NewRow(name: string, size: int, words: int, now: int): Meta {
    Meta(name, size, words, now, now, now, "", "", "", [])
  }

  /** A file that is already listed keeps its row, and a full table takes no more. */
  function AddRow(t: seq<Meta>, m: Meta): seq<Meta> {
    if RowOf(t, m.name) < |t| || |t| >= MAX_FILES then t else t + [m]
  }

  function RemoveRow(t: seq<Meta>, name: string): seq<Meta> {
    var i := RowOf(t, name);
    if i < |t| then t[..i] + t[i + 1..] else t
  }

  function SetOwner(t: seq<Meta>, name: string, owner: string): seq<Meta> {
    var i := RowOf(t, name);
    if i < |t| then t[i := t[i].(owner := owner)] else t
  }

  function SetAcl(t: seq<Meta>, name: string, user: string, permission: int): seq<Meta> {
    var i := RowOf(t, name);
    if i == |t| then t
    else
      var acl := Acl.Granted(t[i].acl, user, permission);
      if acl.None? then t else t[i := t[i].(acl := acl.value)]
  }

  function RemoveAcl(t: seq<Meta>, name: string, user: string): seq<Meta> {
    var i := RowOf(t, name);
    if i == |t| then t else t[i := t[i].(acl := Acl.Revoked(t[i].acl, user))]
  }

  /** New size, word count and modification time after a file was written. */
  function UpdateRow(t: seq<Meta>, name: string, size: int, words: int, now: int): seq<Meta> {
    var i := RowOf(t, name);
    if i < |t| then t[i := t[i].(size := size, words := words, modified := now)] else t
  }

  function AccessRow(t: seq<Meta>, name: string, user: string, now: int): seq<Meta> {
    var i := RowOf(t, name);
    if i < |t| then t[i := t[i].(accessed := now, accessedBy := user)] else t
  }

  // ---- The table as a map from name to row ----------------------------------------------------

  function Row(t: seq<Meta>, name: string): Option<Meta> {
    var i := RowOf(t, name);
    if i < |t| then Some(t[i]) else None
  }

  ghost predicate UniqueNames(t: seq<Meta>) {
    forall i, j | 0 <= i < j < |t| :: t[i].name != t[j].name
  }

  lemma RowOfIs(t: seq<Meta>, i: nat)
    requires UniqueNames(t) && i < |t|
    ensures RowOf(t, t[i].name) == i
  {
    var k := RowOf(t, t[i].name);
    assert k <= i;
  }

  /** Adding sets the one missing row, if there is room, and nothing else. */
  lemma AddRowSets(t: seq<Meta>, m: Meta, name: string)
    requires UniqueNames(t)
    ensures UniqueNames(AddRow(t, m))
    ensures Row(AddRow(t, m), name) ==
            if name == m.name && Row(t, name).None? && |t| < MAX_FILES then Some(m) else Row(t, name)
  {
    var t' := AddRow(t, m);
    if t' != t {
      var i := RowOf(t, name);
      if i < |t| {
        RowOfIs(t', i);
      } else if name == m.name {
        RowOfIs(t', |t|);
      } else {
        var k := RowOf(t', name);
        assert k == |t'|;
      }
    }
  }

  lemma Gap<T>(t: seq<T>, i: nat)
    requires i < |t|
    ensures var t' := t[..i] + t[i + 1..];
      |t'| == |t| - 1 && forall k | 0 <= k < |t'| :: t'[k] == t[if k < i then k else k + 1]
  {
  }

  lemma RowMissing(t: seq<Meta>, name: string)
    requires forall k | 0 <= k < |t| :: t[k].name != name
    ensures Row(t, name) == None
  {
  }

  /** The shift closes one row's gap and keeps every other row. */
  lemma RemoveRowDrops(t: seq<Meta>, gone: string, name: string)
    requires UniqueNames(t)
    ensures UniqueNames(RemoveRow(t, gone))
    ensures Row(RemoveRow(t, gone), name) == if name == gone then None else Row(t, name)
  {
    hide RowOf;
    var t', i, k := RemoveRow(t, gone), RowOf(t, gone), RowOf(t, name);
    if i < |t| {
      Gap(t, i);
      assert forall j | 0 <= j < |t| && j != i :: t[j].name != gone;
      if name == gone || k == |t| {
        RowMissing(t', name);
      } else {
        RowOfIs(t', if k < i then k else k - 1);
      }
    }
  }

  /** Changing a row under its name changes that row only. */
  lemma PutRowSets(t: seq<Meta>, i: nat, m: Meta, name: string)
    requires UniqueNames(t) && i < |t| && m.name == t[i].name
    ensures UniqueNames(t[i := m])
    ensures Row(t[i := m], name) == if name == m.name then Some(m) else Row(t, name)
  {
    var k := RowOf(t, name);
    RowOfIs(t[i := m], i);
    if k < |t| {
      RowOfIs(t, k);
      RowOfIs(t[i := m], k);
    }
  }

  /** What each change leaves of a row, field by field: under its own name the new values
      beside the old ones, and under any other name the old row. */
  lemma ChangesExactly(t: seq<Meta>, name: string, other: string, size: int, words: int, now: int, user: string,
      permission: int)
    requires UniqueNames(t)
    ensures var was := Row(t, name);
      (other != name || was.None? ==>
         Row(UpdateRow(t, name, size, words, now), other) == Row(AccessRow(t, name, user, now), other) ==
         Row(SetOwner(t, name, user), other) == Row(SetAcl(t, name, user, permission), other) ==
         Row(RemoveAcl(t, name, user), other) == Row(t, other)) &&
      (was.Some? ==>
         var m := was.value;
         var grown := Acl.Granted(m.acl, user, permission);
         Row(UpdateRow(t, name, size, words, now), name) ==
           Some(Meta(name, size, words, m.created, now, m.accessed, m.accessedBy, m.owner, m.folder, m.acl)) &&
         Row(AccessRow(t, name, user, now), name) ==
           Some(Meta(name, m.size, m.words, m.created, m.modified, now, user, m.owner, m.folder, m.acl)) &&
         Row(SetOwner(t, name, user), name) ==
           Some(Meta(name, m.size, m.words, m.created, m.modified, m.accessed, m.accessedBy, user, m.folder, m.acl)) &&
         Row(SetAcl(t, name, user, permission), name) ==
           Some(m.(acl := if grown.Some? then grown.value else m.acl)) &&
         Row(RemoveAcl(t, name, user), name) == Some(m.(acl := Acl.Revoked(m.acl, user))))
  {
    hide RowOf, Acl.Granted, Acl.Revoked;
    var i := RowOf(t, name);
    if i < |t| {
      var m := t[i];
      var acl := Acl.Granted(m.acl, user, permission);
      OneRowPut(t, i, m.(size := size, words := words, modified := now), other);
      OneRowPut(t, i, m.(accessed := now, accessedBy := user), other);
      OneRowPut(t, i, m.(owner := user), other);
      OneRowPut(t, i, m.(acl := Acl.Revoked(m.acl, user)), other);
      OneRowPut(t, i, m.(acl := if acl.Some? then acl.value else m.acl), other);
      assert acl.None? ==> m.(acl := m.acl) == m;
    }
  }

  lemma OneRowPut(t: seq<Meta>, i: nat, m: Meta, other: string)
    requires UniqueNames(t) && i < |t| && m.name == t[i].name
    ensures Row(t[i := m], m.name) == Some(m) && (other != m.name ==> Row(t[i := m], other) == Row(t, other))
  {
    hide RowOf;
    PutRowSets(t, i, m, m.name);
    PutRowSets(t, i, m, other);
  }

  /** A file that was just created has the given size and words, all its times are now, and
      nobody owns or shares it yet. */
  lemma CreatesExactly(t: seq<Meta>, name: string, size: int, words: int, now: int)
    requires UniqueNames(t) && Row(t, name).None? && |t| < MAX_FILES
    ensures Row(AddRow(t, NewRow(name, size, words, now)), name) ==
            Some(Meta(name, size, words, now, now, now, "", "", "", []))
  {
    AddRowSets(t, NewRow(name, size, words, now), name);
  }

  // ---- The table in place ---------------------------------------------------------------------

  class Store {
    const rows: array<Meta>
    var count: nat
    var disk: string

    ghost predicate Valid()
      reads this, rows
    {
      rows.Length == MAX_FILES && count <= MAX_FILES && disk == Save(rows[..count])
    }

    ghost function Table(): seq<Meta>
      reads this, rows
      requires count <= rows.Length
    {
      rows[..count]
    }

    constructor ()
      ensures Valid() && fresh(rows) && Table() == []
    {
      rows := new Meta[MAX_FILES](_ => NewRow("", 0, 0, 0));
      count, disk := 0, "";
    }

    method WriteDisk()
      requires rows.Length == MAX_FILES && count <= MAX_FILES
      modifies `disk
      ensures Valid()
    {
      var text := "";
      var i := 0;
      while i < count
        invariant i <= count <= rows.Length && rows[..] == old(rows[..]) && count == old(count)
        invariant text == Save(rows[..i])
      {
        SaveSnoc(rows[..i], rows[i]);
        assert rows[..i + 1] == rows[..i] + [rows[i]];
        text := text + SaveRow(rows[i]);
        i := i + 1;
      }
      disk := text;
    }

    /** Replace the table by what the text file holds. */
    method ReadDisk()
      requires rows.Length == MAX_FILES
      modifies `count, rows
      ensures count <= MAX_FILES && Table() == Load(disk, MAX_FILES)
    {
      hide LoadRow, LineLength, TrimLine, Load;
      count := 0;
      var rest := disk;
      ghost var got: seq<Meta> := [];
      assert got + Load(rest, MAX_FILES) == Load(rest, MAX_FILES);
      while rest != "" && count < MAX_FILES
        invariant count <= MAX_FILES && disk == old(disk) && rows[..count] == got
        invariant got + Load(rest, MAX_FILES - count) == Load(disk, MAX_FILES)
        decreases |rest|
      {
        var n := LineLength(rest);
        var row := LoadRow(TrimLine(rest[..n]));
        LoadStep(rest, MAX_FILES - count, got);
        if row.Some? {
          rows[count] := row.value;
          got := got + [row.value];
          count := count + 1;
        }
        rest := rest[n..];
      }
      LoadDone(rest, MAX_FILES - count, got);
    }

    /** A restart of the server: what was on disk is the table again. */
    method Restart()
      requires Valid() && (forall m :: m in Table() ==> Fits(m) && Separable(m))
      modifies this, rows
      ensures Valid() && Table() == old(Table())
    {
      RoundTripExactly(Table());
      ReadDisk();
    }

    method FindFile(name: string) returns (i: nat)
      requires Valid()
      ensures i == RowOf(Table(), name)
    {
      hide Save, RowOf;
      i := 0;
      while i < count && rows[i].name != name
        invariant i <= count
        invariant forall k | 0 <= k < i :: rows[k].name != name
      {
        i := i + 1;
      }
    }

    method AddEntry(m: Meta)
      requires Valid()
      modifies this, rows
      ensures Valid() && Table() == AddRow(old(Table()), m)
    {
      hide Save, RowOf;
      var i := FindFile(m.name);
      if i < count || count >= MAX_FILES {
        return;
      }
      rows[count] := m;
      count := count + 1;
      assert Table() == old(Table()) + [m];
      WriteDisk();
    }

    /** Each row behind row `i` moves one place down. */
    method ShiftDown(i: nat)
      requires i < count <= rows.Length
      modifies rows
      ensures rows[..count - 1] == old(rows[..count])[..i] + old(rows[..count])[i + 1..]
    {
      ghost var t := rows[..count];
      var j := i;
      while j < count - 1
        invariant i <= j <= count - 1
        invariant forall k | 0 <= k < i :: rows[k] == t[k]
        invariant forall k | i <= k < j :: rows[k] == t[k + 1]
        invariant forall k | j <= k < count :: rows[k] == t[k]
      {
        rows[j] := rows[j + 1];
        j := j + 1;
      }
      Closed(rows[..count - 1], t, i);
    }

    method RemoveEntry(name: string)
      requires Valid()
      modifies this, rows
      ensures Valid() && Table() == RemoveRow(old(Table()), name)
    {
      hide Save, RowOf;
      var i := FindFile(name);
      if i == count {
        return;
      }
      ShiftDown(i);
      count := count - 1;
      WriteDisk();
    }

    method PutRow(i: nat, m: Meta)
      requires Valid() && i < count
      modifies rows, `disk
      ensures Valid() && Table() == old(Table())[i := m] && count == old(count)
    {
      rows[i] := m;
      assert rows[..count] == old(rows[..count])[i := m];
      WriteDisk();
    }

    method PersistOwner(name: string, owner: string)
      requires Valid()
      modifies this, rows
      ensures Valid() && Table() == SetOwner(old(Table()), name, owner)
    {
      var i := FindFile(name);
      if i < count {
        PutRow(i, rows[i].(owner := owner));
      }
    }

    method PersistAcl(name: string, user: string, permission: int)
      requires Valid()
      modifies this, rows
      ensures Valid() && Table() == SetAcl(old(Table()), name, user, permission)
    {
      var i := FindFile(name);
      if i == count {
        return;
      }
      var acl := Acl.Grant(rows[i].acl, user, permission);
      if acl.Some? {
        PutRow(i, rows[i].(acl := acl.value));
      }
    }

    method PersistRemoveAcl(name: string, user: string)
      requires Valid()
      modifies this, rows
      ensures Valid() && Table() == RemoveAcl(old(Table()), name, user)
    {
      var i := FindFile(name);
      if i == count {
        return;
      }
      var acl := Acl.Revoke(rows[i].acl, user);
      PutRow(i, rows[i].(acl := acl));
    }

    method UpdateEntry(name: string, size: int, words: int, now: int)
      requires Valid()
      modifies this, rows
      ensures Valid() && Table() == UpdateRow(old(Table()), name, size, words, now)
    {
      var i := FindFile(name);
      if i < count {
        PutRow(i, rows[i].(size := size, words := words, modified := now));
      }
    }

    method PersistAccess(name: string, user: string, now: int)
      requires Valid()
      modifies this, rows
      ensures Valid() && Table() == AccessRow(old(Table()), name, user, now)
    {
      var i := FindFile(name);
      if i < count {
        PutRow(i, rows[i].(accessed := now, accessedBy := user));
      }
    }
  }

  /** One line read: the rows so far grow by the row of the line, if it has one. */
  lemma LoadStep(rest: string, room: nat, got: seq<Meta>)
    requires rest != "" && room > 0
    ensures var n := LineLength(rest); var row := LoadRow(TrimLine(rest[..n]));
      got + Load(rest, room) ==
      if row.Some? then got + [row.value] + Load(rest[n..], room - 1) else got + Load(rest[n..], room)
  {
    hide LoadRow, LineLength, TrimLine;
  }

  lemma LoadDone(rest: string, room: nat, got: seq<Meta>)
    requires rest == "" || room == 0
    ensures got + Load(rest, room) == got
  {
  }

  lemma Closed<T>(s: seq<T>, t: seq<T>, i: nat)
    requires i < |t| && |s| == |t| - 1
    requires (forall k | 0 <= k < i :: s[k] == t[k]) && forall k | i <= k < |s| :: s[k] == t[k + 1]
    ensures s == t[..i] + t[i + 1..]
  {
  }

  lemma {:induction false} SaveSnoc(t: seq<Meta>, m: Meta)
    ensures Save(t + [m]) == Save(t) + SaveRow(m)
  {
    if t == [] {
      assert t + [m] == [m];
    } else {
      assert (t + [m])[1..] == t[1..] + [m];
      SaveSnoc(t[1..], m);
    }
  }
}
