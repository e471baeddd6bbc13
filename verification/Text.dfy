/** C strings as the two servers read them: `strtok` tokens, single-space joining,
    and the laws that make them undo each other. */
module Text {
  datatype Option<T> = None | Some(value: T)

  ghost predicate Distinct<T>(s: seq<T>) {
    forall i, j | 0 <= i < j < |s| :: s[i] != s[j]
  }

  /** Separators of the editor's tokenizers, of an inserted line, and of STREAM. */
  const EDITOR_SEPS: set<char> := {' ', '\t', '\n'}
  const LINE_SEPS: set<char> := {' ', '\t'}
  const STREAM_SEPS: set<char> := {' ', '\t', '\n', '\r'}

  /** What `isspace` and `sscanf` take for white space. */
  const SPACES: set<char> := {' ', '\t', '\n', '\U{0B}', '\U{0C}', '\r'}

  predicate IsToken(w: string, seps: set<char>) {
    w != "" && forall k | 0 <= k < |w| :: w[k] !in seps
  }

  predicate AllTokens(ws: seq<string>, seps: set<char>) {
    forall k | 0 <= k < |ws| :: IsToken(ws[k], seps)
  }

  /** Length of the longest separator-free prefix. */
  function TokenEnd(s: string, seps: set<char>): (n: nat)
    ensures n <= |s|
    ensures forall k | 0 <= k < n :: s[k] !in seps
    ensures n < |s| ==> s[n] in seps
  {
    if s == "" || s[0] in seps then 0 else 1 + TokenEnd(s[1..], seps)
  }

  /** The maximal separator-free pieces of `s`, in order. */
  function Tokens(s: string, seps: set<char>): (ws: seq<string>)
    ensures AllTokens(ws, seps)
  {
    if s == "" then []
    else if s[0] in seps then Tokens(s[1..], seps)
    else var n := TokenEnd(s, seps); [s[..n]] + Tokens(s[n..], seps)
  }

  /** The words joined by one space. */
  function Join(ws: seq<string>): string {
    if ws == [] then ""
    else if |ws| == 1 then ws[0]
    else ws[0] + " " + Join(ws[1..])
  }

  /** The part of a list that fits a buffer with room for `max` items. */
  function Capped<T>(s: seq<T>, max: nat): seq<T> {
    if |s| <= max then s else s[..max]
  }

  /** One `strtok` call on the text `s` still to be read: skip separators, cut a token,
      and leave `rest` for the next call. */
  method NextToken(s: string, seps: set<char>) returns (found: bool, token: string, rest: string)
    ensures found <==> Tokens(s, seps) != []
    ensures found ==> |rest| < |s| && Tokens(s, seps) == [token] + Tokens(rest, seps)
  {
    var start := 0;
    while start < |s| && s[start] in seps
      invariant start <= |s|
      invariant Tokens(s, seps) == Tokens(s[start..], seps)
    {
      assert s[start..][1..] == s[start + 1..];
      start := start + 1;
    }
    var end := start;
    ghost var n := TokenEnd(s[start..], seps);
    while end < |s| && s[end] !in seps
      invariant start <= end <= start + n <= |s|
      decreases |s| - end
    {
      assert s[end] == s[start..][end - start];
      end := end + 1;
    }
    assert end < |s| ==> s[end] == s[start..][end - start];
    found, token, rest := start < |s|, s[start..end], s[end..];
    assert s[start..][..n] == token && s[start..][n..] == rest;
  }

  /** The `strtok` loop, which stops after `cap` tokens. */
  method Tokenize(s: string, seps: set<char>, cap: nat) returns (ws: seq<string>)
    ensures ws == Capped(Tokens(s, seps), cap)
  {
    hide Tokens, IsToken;
    ws := [];
    var found, token, rest := NextToken(s, seps);
    while found && |ws| < cap
      invariant |ws| <= cap
      invariant Tokens(s, seps) == ws + if found then [token] + Tokens(rest, seps) else []
      decreases cap - |ws|
    {
      ws := ws + [token];
      found, token, rest := NextToken(rest, seps);
    }
  }

  lemma {:induction false} TokensOfToken(w: string, seps: set<char>)
    requires IsToken(w, seps)
    ensures Tokens(w, seps) == [w]
  {
    assert TokenEnd(w, seps) == |w|;
    assert w[..|w|] == w && w[|w|..] == "";
  }

  /** A separator between two texts separates their tokens. */
  lemma {:induction false} TokensAcrossSeparator(a: string, c: char, b: string, seps: set<char>)
    requires c in seps
    ensures Tokens(a + [c] + b, seps) == Tokens(a, seps) + Tokens(b, seps)
    decreases |a|
  {
    var s := a + [c] + b;
    if a == "" {
      assert s[1..] == b;
    } else if a[0] in seps {
      assert s[1..] == a[1..] + [c] + b;
      TokensAcrossSeparator(a[1..], c, b, seps);
    } else {
      var n := TokenEnd(a, seps);
      TokenEndIs(s, n, seps);
      assert s[..n] == a[..n];
      assert s[n..] == a[n..] + [c] + b;
      TokensAcrossSeparator(a[n..], c, b, seps);
    }
  }

  /** What the three tokenizers cut at: the editor at blanks, tabs and line breaks, a typed
      line at blanks and tabs, STREAM at carriage returns too. Everything else stays in one word. */
  lemma CutAtSeparators(a: string, c: char, b: string, w: string)
    ensures c in {' ', '\t', '\n'} ==> Tokens(a + [c] + b, EDITOR_SEPS) == Tokens(a, EDITOR_SEPS) + Tokens(b, EDITOR_SEPS)
    ensures c in {' ', '\t'} ==> Tokens(a + [c] + b, LINE_SEPS) == Tokens(a, LINE_SEPS) + Tokens(b, LINE_SEPS)
    ensures c in {' ', '\t', '\n', '\r'} ==>
              Tokens(a + [c] + b, STREAM_SEPS) == Tokens(a, STREAM_SEPS) + Tokens(b, STREAM_SEPS)
    ensures w != "" && (forall k | 0 <= k < |w| :: w[k] !in {' ', '\t', '\n'}) ==> Tokens(w, EDITOR_SEPS) == [w]
    ensures w != "" && (forall k | 0 <= k < |w| :: w[k] !in {' ', '\t'}) ==> Tokens(w, LINE_SEPS) == [w]
    ensures w != "" && (forall k | 0 <= k < |w| :: w[k] !in {' ', '\t', '\n', '\r'}) ==> Tokens(w, STREAM_SEPS) == [w]
  {
    hide Tokens;
    forall seps | c in seps ensures Tokens(a + [c] + b, seps) == Tokens(a, seps) + Tokens(b, seps) {
      TokensAcrossSeparator(a, c, b, seps);
    }
    forall seps | IsToken(w, seps) ensures Tokens(w, seps) == [w] {
      TokensOfToken(w, seps);
    }
  }

  lemma TokenEndIs(s: string, n: nat, seps: set<char>)
    requires n <= |s| && (forall k | 0 <= k < n :: s[k] !in seps) && (n < |s| ==> s[n] in seps)
    ensures TokenEnd(s, seps) == n
  {
    if n > 0 { TokenEndIs(s[1..], n - 1, seps); }
  }

  /** Printing words and reading them back gives the same words. */
  lemma {:induction false} TokensOfJoin(ws: seq<string>, seps: set<char>)
    requires AllTokens(ws, seps) && ' ' in seps
    ensures Tokens(Join(ws), seps) == ws
  {
    if |ws| == 1 {
      TokensOfToken(ws[0], seps);
    } else if |ws| > 1 {
      TokensOfJoin(ws[1..], seps);
      TokensAcrossSeparator(ws[0], ' ', Join(ws[1..]), seps);
      assert ws[0] + [' '] + Join(ws[1..]) == Join(ws);
      TokensOfToken(ws[0], seps);
    }
  }

  lemma {:induction false} JoinConcat(a: seq<string>, b: seq<string>)
    ensures Join(a + b) == if a == [] then Join(b) else if b == [] then Join(a) else Join(a) + " " + Join(b)
  {
    if a == [] {
      assert a + b == b;
    } else if b == [] {
      assert a + b == a;
    } else {
      assert (a + b)[1..] == a[1..] + b;
      JoinConcat(a[1..], b);
    }
  }

  lemma JoinNonempty(ws: seq<string>)
    requires ws != [] && ws[0] != ""
    ensures Join(ws) != ""
  {
  }

  /** Two separator sets that agree on the characters of `s` cut it alike. */
  lemma {:induction false} TokensSameSeparators(s: string, seps: set<char>, seps': set<char>)
    requires forall k | 0 <= k < |s| :: s[k] in seps <==> s[k] in seps'
    ensures Tokens(s, seps) == Tokens(s, seps')
    decreases |s|
  {
    if s != "" {
      if s[0] in seps {
        TokensSameSeparators(s[1..], seps, seps');
      } else {
        var n := TokenEnd(s, seps);
        assert TokenEnd(s, seps') == n by { TokenEndIs(s, n, seps'); }
        TokensSameSeparators(s[n..], seps, seps');
      }
    }
  }

  /** There is no word exactly when every character is a separator. */
  lemma {:induction false} NoTokens(s: string, seps: set<char>)
    ensures Tokens(s, seps) == [] <==> forall k | 0 <= k < |s| :: s[k] in seps
    decreases |s|
  {
    if s != "" && s[0] in seps {
      NoTokens(s[1..], seps);
      assert forall k | 1 <= k < |s| :: s[k] == s[1..][k - 1];
    }
  }

  /** The metadata word counter: one flag, one pass. */
  method CountWords(s: string) returns (count: nat)
    ensures count == |Tokens(s, STREAM_SEPS)|
    ensures '\r' !in s ==> count == |Tokens(s, EDITOR_SEPS)|
  {
    count := 0;
    var inWord := false;
    var i := 0;
    while i < |s|
      invariant 0 <= i <= |s|
      invariant inWord ==> i > 0 && s[i - 1] !in STREAM_SEPS
      invariant !inWord ==> i == 0 || s[i - 1] in STREAM_SEPS
      invariant count + (if inWord then 1 else 0) == |Tokens(s[..i], STREAM_SEPS)|
    {
      TokensSnoc(s[..i], s[i], STREAM_SEPS);
      assert s[..i] + [s[i]] == s[..i + 1];
      if s[i] in STREAM_SEPS {
        if inWord {
          count := count + 1;
          inWord := false;
        }
      } else {
        inWord := true;
      }
      i := i + 1;
    }
    assert s[..|s|] == s;
    if inWord {
      count := count + 1;
    }
    if '\r' !in s {
      TokensSameSeparators(s, STREAM_SEPS, EDITOR_SEPS);
    }
  }

  /** One more character starts a token, or extends the last one, or adds none. */
  lemma {:induction false} TokensSnoc(s: string, c: char, seps: set<char>)
    ensures |Tokens(s + [c], seps)| ==
            |Tokens(s, seps)| + if c !in seps && (s == "" || s[|s| - 1] in seps) then 1 else 0
    decreases |s|
  {
    hide IsToken;
    var t := s + [c];
    if c in seps {
      TokensAcrossSeparator(s, c, "", seps);
      assert s + [c] + "" == t;
    } else if s == "" {
      TokensOfToken(t, seps);
    } else if s[0] in seps {
      assert t[1..] == s[1..] + [c];
      TokensSnoc(s[1..], c, seps);
    } else {
      var n := TokenEnd(s, seps);
      if n == |s| {
        TokensOfToken(s, seps);
        TokensOfToken(t, seps);
      } else {
        TokenEndIs(t, n, seps);
        assert t[n..] == s[n..] + [c];
        TokensSnoc(s[n..], c, seps);
      }
    }
  }
}
