/** The WRITE, insert and ETIRW code of a client thread on file contents: loops over word
    buffers and boundary tables, proved against the functions of `Editing`. */
module Editor {
  import opened Text
  import opened Sentences
  import opened Editing

  const MAX_CONTENT: nat := 8191
  const MAX_WORDS: nat := 1024
  const MAX_SENTENCES: nat := 256
  const MAX_WORD: nat := 511

  /** Every word leaves room for a delimiter after it. */
  predicate ShortWords(words: seq<string>) {
    forall k | 0 <= k < |words| :: |words[k]| < MAX_WORD
  }

  /** The content fits the buffers of a client thread. */
  predicate Fits(content: string) {
    |content| <= MAX_CONTENT && |Tokens(content, EDITOR_SEPS)| <= MAX_WORDS && |SentencesOf(content)| <= MAX_SENTENCES &&
    ShortWords(Tokens(content, EDITOR_SEPS))
  }

  lemma TableOfFitting(content: string)
    requires Fits(content)
    ensures Capped(Tokens(content, EDITOR_SEPS), MAX_WORDS) == Tokens(content, EDITOR_SEPS)
    ensures BoundaryTable(Tokens(content, EDITOR_SEPS), MAX_SENTENCES) == CutsOf(SentencesOf(content), 0)
  {
  }

  /** Boundary `k` of a document, as indices into its words. */
  lemma Boundary(content: string, k: nat)
    requires k < |SentencesOf(content)|
    ensures var ws, gs := Tokens(content, EDITOR_SEPS), SentencesOf(content);
      var cut := CutsOf(gs, 0)[k];
      0 <= cut.start <= cut.end < |ws| && ws[cut.start..cut.end + 1] == gs[k] &&
      ws[..cut.start] == Flat(gs[..k]) && ws[cut.end + 1..] == Flat(gs[k + 1..]) &&
      cut.delimiter == DelimiterOf(gs[k]) && (k + 1 == |gs| ==> cut.end == |ws| - 1)
  {
    var ws, gs := Tokens(content, EDITOR_SEPS), SentencesOf(content);
    SentencesOfShape(content);
    SplitAt(gs, k);
    FlatParts(gs[..k], gs[k], gs[k + 1..]);
    Slices(Flat(gs[..k]), gs[k], Flat(gs[k + 1..]));
    CutStart(gs, 0, k);
  }

  lemma Slices<T>(a: seq<T>, g: seq<T>, b: seq<T>)
    ensures var s := a + g + b;
      s[..|a|] == a && s[|a|..|a| + |g|] == g && s[|a| + |g|..] == b
  {
  }

  lemma SliceGrows<T>(before: seq<T>, s: seq<T>, from: nat, to: nat)
    requires from <= to < |s|
    ensures before + s[from..to] + [s[to]] == before + s[from..to + 1]
  {
  }

  lemma {:induction false} CutStart(gs: seq<Sentence>, base: nat, k: nat)
    requires k < |gs|
    ensures CutsOf(gs, base)[k].start == base + |Flat(gs[..k])|
    ensures CutsOf(gs, base)[k].end == base + |Flat(gs[..k])| + |gs[k]| - 1
    ensures CutsOf(gs, base)[k].delimiter == DelimiterOf(gs[k])
    decreases k
  {
    if k > 0 {
      CutStart(gs[1..], base + |gs[0]|, k - 1);
      assert gs[..k][1..] == gs[1..][..k - 1];
    }
  }

  // ---- WRITE: which sentences may be locked ---------------------------------------------------

  /** A file of separators only, which parses to no sentence although it is not empty. */
  predicate Blank(content: string) {
    content != "" && Tokens(content, EDITOR_SEPS) == []
  }

  /** The highest sentence number WRITE accepts. */
  function Available(content: string): int {
    var ws, gs := Tokens(content, EDITOR_SEPS), SentencesOf(content);
    if content == "" then 1
    else if gs == [] then 2
    else if Ends(ws[|ws| - 1]) then |gs| + 1
    else |gs|
  }

  /** WRITE accepts sentence `n` exactly when it exists or continues a finished document;
      the one exception is a blank file, where it also accepts sentence 2. */
  lemma AdmissionExact(content: string)
    ensures (forall n: int :: 1 <= n <= Available(content) <==> Admissible(content, n)) <==> !Blank(content)
  {
    var ws := Tokens(content, EDITOR_SEPS);
    if ws != [] {
      ParseNonemptyClosed(ws);
    } else if content != "" {
      assert 1 <= 2 <= Available(content) && !Admissible(content, 2);
    }
  }

  /** The completeness test: the sentence table from the fused parser, the words counted
      again, and the last word looked up again. */
  method AvailableSentences(content: string) returns (available: int)
    requires Fits(content)
    ensures available == Available(content)
  {
    if content == "" {
      available := 1;
    } else {
      TableOfFitting(content);
      var cuts, _ := GetSentenceInfo(content, MAX_WORDS, MAX_SENTENCES);
      if |cuts| == 0 {
        available := 2;
      } else {
        Boundary(content, |cuts| - 1);
        var lastEnd := cuts[|cuts| - 1].end;
        var words := Tokenize(content, EDITOR_SEPS, MAX_WORDS);
        available := |cuts|;
        if lastEnd < |words| - 1 {
          available := |cuts| + 1;
        } else if |words| > 0 {
          if Ends(words[lastEnd]) {
            available := |cuts| + 1;
          }
        }
      }
    }
  }

  // ---- The insert command ---------------------------------------------------------------------

  /** Copy the words of a sentence, taking the delimiter off the last one. */
  method DetachDelimiter(words: seq<string>, start: nat, end: nat) returns (body: seq<string>, delimiter: string)
    requires start <= end < |words|
    ensures var g := words[start..end + 1]; body == Body(g) && delimiter == Delimiter(g)
    ensures var w := words[end];
      if w != "" && w[|w| - 1] in {'.', '!', '?'}
      then delimiter == w[|w| - 1..] && body == words[start..end] + (if |w| == 1 then [] else [w[..|w| - 1]])
      else delimiter == "" && body == words[start..end + 1]
  {
    body, delimiter := [], "";
    var i := start;
    while i < end
      invariant start <= i <= end
      invariant body == words[start..i]
    {
      body := body + [words[i]];
      i := i + 1;
    }
    var last := words[end];
    assert words[start..end + 1] == words[start..end] + [last];
    if Ends(last) {
      delimiter := [last[|last| - 1]];
      if |last| > 1 {
        body := body + [last[..|last| - 1]];
      }
    } else {
      body := body + [last];
    }
  }

  /** Copy the sentence's words and the typed ones, the latter before word `index` or at
      the end. */
  method InsertTokens(body: seq<string>, index: int, tokens: seq<string>) returns (ws: seq<string>)
    requires 1 <= index <= |body| + 1
    ensures ws == body[..index - 1] + tokens + body[index - 1..]
  {
    ws := [];
    var i := 0;
    while i < |body|
      invariant i <= |body|
      invariant ws == if i < index then body[..i] else body[..index - 1] + tokens + body[index - 1..i]
    {
      if i + 1 == index {
        ws := ws + tokens;
      }
      ws := ws + [body[i]];
      i := i + 1;
    }
    assert body[..|body|] == body;
    if index > |body| {
      ws := ws + tokens;
      assert body[index - 1..] == [];
    }
  }

  method JoinWords(words: seq<string>) returns (content: string)
    requires AllTokens(words, EDITOR_SEPS)
    ensures content == Join(words)
  {
    content := "";
    var i := 0;
    while i < |words|
      invariant i <= |words|
      invariant content == Join(words[..i])
    {
      JoinConcat(words[..i], [words[i]]);
      assert words[..i + 1] == words[..i] + [words[i]];
      if i > 0 {
        content := content + " ";
      }
      content := content + words[i];
      i := i + 1;
    }
    assert words[..i] == words;
  }

  /** One line of a write session on the current draft; `None` stands for an error reply. */
  method InsertLine(content: string, n: int, index: int, text: string) returns (r: Option<string>)
    requires 1 <= n && 1 <= index && ValidText(text) && Fits(content) && ShortWords(Tokens(text, LINE_SEPS))
    ensures r == Insert(content, n, index, text)
  {
    if content == "" && n == 1 {
      if index == 1 { return Some(text); }
      return None;
    }
    TableOfFitting(content);
    var words := Tokenize(content, EDITOR_SEPS, MAX_WORDS);
    var cuts := FindBoundaries(words, MAX_SENTENCES);
    if n > |cuts| {
      r := if index != 1 then None else if content == "" then Some(text) else Some(content + " " + text);
      return;
    }
    var start, end := cuts[n - 1].start, cuts[n - 1].end;
    InsertByIndex(content, n, index, text, start, end);
    BodyLength(words[start..end + 1]);
    if index > end - start + 2 {
      return None;
    }
    r := InsertIntoSentence(words, start, end, index, text);
  }

  /** The same line once the boundaries of its sentence are known. */
  method InsertIntoSentence(words: seq<string>, start: nat, end: nat, index: int,
      text: string) returns (r: Option<string>)
    requires start <= end < |words| && AllTokens(words, EDITOR_SEPS)
    requires ShortWords(words) && ShortWords(Tokens(text, LINE_SEPS))
    requires 1 <= index && ValidText(text) && Tokens(text, LINE_SEPS) == Tokens(text, EDITOR_SEPS) != []
    ensures r == InsertBetween(words[..start], words[start..end + 1], words[end + 1..], index, Tokens(text, LINE_SEPS))
  {
    hide Body, Delimiter, Tokens, Join, ShortWords, StandsAlone;
    var body, delimiter := DetachDelimiter(words, start, end);
    if index > |body| + 1 {
      return None;
    }
    var tokens := Tokenize(text, LINE_SEPS, |text|);
    TokensBound(text, LINE_SEPS);
    var ws := InsertTokens(body, index, tokens);
    AttachIsUpdate(ws, delimiter);
    InsertedIsShort(words, start, end, index, tokens);
    if delimiter != "" && |ws[|ws| - 1]| < MAX_WORD {
      ws := ws[|ws| - 1 := ws[|ws| - 1] + delimiter];
    }
    ghost var g := words[start..end + 1];
    assert ws == Edited(g, index, tokens);
    AllTokensOfParts(words, start, end, ws) by {
      EditedShape(g, index, tokens);
    }
    var final := JoinWords(words[..start] + ws + words[end + 1..]);
    r := Some(final);
  }

  lemma InsertedIsShort(words: seq<string>, start: nat, end: nat, index: int, tokens: seq<string>)
    requires start <= end < |words| && ShortWords(words) && ShortWords(tokens)
    requires 1 <= index <= |Body(words[start..end + 1])| + 1 && tokens != []
    ensures var b := Body(words[start..end + 1]); var ws := b[..index - 1] + tokens + b[index - 1..];
      |ws[|ws| - 1]| < MAX_WORD
  {
    assert ShortWords(Body(words[start..end + 1]));
  }

  lemma AllTokensOfParts(words: seq<string>, start: nat, end: nat, ws: seq<string>)
    requires start <= end < |words| && AllTokens(words, EDITOR_SEPS) && AllTokens(ws, EDITOR_SEPS)
    ensures AllTokens(words[..start] + ws + words[end + 1..], EDITOR_SEPS)
  {
  }

  /** The draft a line leaves, in terms of word indices. */
  lemma InsertByIndex(content: string, n: int, index: int, text: string, start: nat, end: int)
    requires 1 <= n <= |SentencesOf(content)| && 1 <= index && ValidText(text)
    requires var cut := CutsOf(SentencesOf(content), 0)[n - 1]; start == cut.start && end == cut.end
    ensures var words := Tokens(content, EDITOR_SEPS);
      start <= end < |words| && words[start..end + 1] != [] &&
      Tokens(text, LINE_SEPS) == Tokens(text, EDITOR_SEPS) != [] &&
      Insert(content, n, index, text) ==
        InsertBetween(words[..start], words[start..end + 1], words[end + 1..], index, Tokens(text, LINE_SEPS))
  {
    hide Tokens, Flat, CutsOf, InsertBetween, TokenEnd, IsSentence, Parse;
    var words, gs := Tokens(content, EDITOR_SEPS), SentencesOf(content);
    Boundary(content, n - 1);
    SentencesOfShape(content);
    NothingParsed();
    TextHasTokens(text);
    var a, g, b := words[..start], words[start..end + 1], words[end + 1..];
    assert a == Flat(gs[..n - 1]) && g == gs[n - 1] && b == Flat(gs[n..]);
  }

  lemma BodyLength(g: Sentence)
    requires g != []
    ensures |g| - 1 <= |Body(g)| <= |g|
  {
  }

  lemma AttachIsUpdate(ws: seq<string>, delimiter: string)
    requires ws != []
    ensures Attach(ws, delimiter) == if delimiter == "" then ws else ws[|ws| - 1 := ws[|ws| - 1] + delimiter]
  {
    assert delimiter == "" ==> ws[|ws| - 1] + delimiter == ws[|ws| - 1];
  }

  lemma {:induction false} TokensBound(s: string, seps: set<char>)
    ensures |Tokens(s, seps)| <= |s|
    decreases |s|
  {
    if s != "" {
      TokensBound(if s[0] in seps then s[1..] else s[TokenEnd(s, seps)..], seps);
    }
  }

  // ---- ETIRW: the merge -----------------------------------------------------------------------

  lemma NextJoined(words: seq<string>, start: nat, w: nat)
    requires start <= w < |words| && AllTokens(words, EDITOR_SEPS)
    ensures Join(words[start..w + 1]) == (if w > start then Join(words[start..w]) + " " else "") + words[w]
  {
    hide Tokens;
    assert words[start..w + 1] == words[start..w] + [words[w]];
    JoinConcat(words[start..w], [words[w]]);
  }

  lemma NothingJoined(words: seq<string>, start: nat)
    requires start <= |words|
    ensures Join(words[start..start]) == ""
  {
  }

  /** Append one sentence, with a space before it unless it is the first text. */
  method AppendSentence(final: string, words: seq<string>, start: nat, end: nat) returns (result: string)
    requires start <= end < |words| && AllTokens(words, EDITOR_SEPS)
    ensures result == (if final == "" then "" else final + " ") + Join(words[start..end + 1])
  {
    hide Tokens, SentencesOf, AllTokens, Join;
    result := final;
    if |result| > 0 {
      result := result + " ";
    }
    ghost var prefix := result;
    NothingJoined(words, start);
    var w := start;
    while w <= end
      invariant start <= w <= end + 1
      invariant result == prefix + Join(words[start..w])
    {
      NextJoined(words, start, w);
      if w > start {
        result := result + " ";
      }
      result := result + words[w];
      w := w + 1;
    }
  }

  /** Sentences with at least one word each, all of them tokens. */
  predicate Solid(gs: seq<Sentence>) {
    forall k | 0 <= k < |gs| :: gs[k] != [] && AllTokens(gs[k], EDITOR_SEPS)
  }

  /** The text of some sentences is empty only when there are none. */
  lemma JoinIsEmpty(gs: seq<Sentence>)
    requires Solid(gs)
    ensures Join(Flat(gs)) == "" <==> gs == []
    ensures Flat(gs) == [] <==> gs == []
  {
    if gs != [] {
      assert Flat(gs)[0] == gs[0][0];
      JoinNonempty(Flat(gs));
    }
  }

  lemma JoinSnoc(gs: seq<Sentence>, g: Sentence)
    requires Solid(gs) && g != [] && AllTokens(g, EDITOR_SEPS)
    ensures Join(Flat(gs + [g])) == (if Join(Flat(gs)) == "" then "" else Join(Flat(gs)) + " ") + Join(g)
    ensures Solid(gs + [g])
  {
    JoinIsEmpty(gs);
    FlatSnoc(gs, g);
    JoinConcat(Flat(gs), g);
    EmptyPrefix(Join(g));
  }

  /** Append the sentences `from` up to `to` of a parsed file to the text of `done`. */
  method AppendSentences(final: string, ghost done: seq<Sentence>, ghost content: string,
                         words: seq<string>, cuts: seq<Cut>, from: nat, to: nat) returns (result: string)
    requires words == Tokens(content, EDITOR_SEPS) && cuts == CutsOf(SentencesOf(content), 0)
    requires from <= to <= |cuts|
    requires Solid(done) && final == Join(Flat(done))
    ensures result == Join(Flat(done + SentencesOf(content)[from..to]))
    ensures Solid(done + SentencesOf(content)[from..to])
  {
    hide Tokens, SentencesOf, Flat, Join, WellFormed, Parse, CutsOf;
    result := final;
    ghost var gs := SentencesOf(content);
    ghost var now := done;
    SentencesOfShape(content);
    var s := from;
    while s < to
      invariant from <= s <= to
      invariant now == done + gs[from..s] && Solid(now)
      invariant result == Join(Flat(now))
    {
      Boundary(content, s);
      JoinSnoc(now, gs[s]);
      result := AppendSentence(result, words, cuts[s].start, cuts[s].end);
      SliceGrows(done, gs, from, s);
      now := now + [gs[s]];
      s := s + 1;
    }
  }

  /** The text of the last sentence of a parsed file. */
  method LastSentence(ghost content: string, words: seq<string>, cuts: seq<Cut>) returns (text: string)
    requires words == Tokens(content, EDITOR_SEPS) && cuts == CutsOf(SentencesOf(content), 0)
    ensures var gs := SentencesOf(content); text == if gs == [] then "" else Join(gs[|gs| - 1])
  {
    text := "";
    if |cuts| > 0 {
      var last := |cuts| - 1;
      Boundary(content, last);
      assert words[cuts[last].start..cuts[last].end + 1] == SentencesOf(content)[last];
      text := AppendSentence("", words, cuts[last].start, cuts[last].end);
      EmptyPrefix(Join(words[cuts[last].start..cuts[last].end + 1]));
    }
  }

  lemma EmptyPrefix(s: string)
    ensures "" + s == s
  {
  }

  /** The merge of ETIRW: both files parsed again, one sentence taken from the draft. */
  method MergeSentence(live: string, n: int, draft: string) returns (final: string)
    requires 1 <= n && Fits(live) && Fits(draft)
    ensures final == Merge(live, n, draft)
  {
    TableOfFitting(live);
    TableOfFitting(draft);
    var words := Tokenize(live, EDITOR_SEPS, MAX_WORDS);
    var cuts := FindBoundaries(words, MAX_SENTENCES);
    var draftWords := Tokenize(draft, EDITOR_SEPS, MAX_WORDS);
    var draftCuts := FindBoundaries(draftWords, MAX_SENTENCES);
    ghost var gs, drafted := SentencesOf(live), SentencesOf(draft);
    if |cuts| == 0 {
      final := draft;
    } else if n > |cuts| {
      var text := LastSentence(draft, draftWords, draftCuts);
      final := live + " " + text;
    } else {
      final := ReplaceSentence(live, n, draft, words, cuts, draftWords, draftCuts);
    }
  }

  /** The merge of an existing sentence: the sentences before it, the draft's version, and
      the sentences after it. */
  method ReplaceSentence(ghost live: string, n: int, ghost draft: string,
                         words: seq<string>, cuts: seq<Cut>, draftWords: seq<string>, draftCuts: seq<Cut>) returns (final: string)
    requires 1 <= n <= |cuts|
    requires words == Tokens(live, EDITOR_SEPS) && cuts == CutsOf(SentencesOf(live), 0)
    requires draftWords == Tokens(draft, EDITOR_SEPS) && draftCuts == CutsOf(SentencesOf(draft), 0)
    ensures final == Merge(live, n, draft)
  {
    ghost var gs, drafted := SentencesOf(live), SentencesOf(draft);
    final := AppendSentences("", [], live, words, cuts, 0, n - 1);
    ghost var done: seq<Sentence> := [] + gs[0..n - 1];
    if n <= |draftCuts| {
      final := AppendSentences(final, done, draft, draftWords, draftCuts, n - 1, n);
      done := done + drafted[n - 1..n];
    }
    final := AppendSentences(final, done, live, words, cuts, n, |cuts|);
    MergedList(gs, drafted, n);
  }

  lemma MergedList<T>(gs: seq<T>, drafted: seq<T>, n: int)
    requires 1 <= n <= |gs|
    ensures n > |drafted| ==> [] + gs[0..n - 1] + gs[n..|gs|] == gs[..n - 1] + [] + gs[n..]
    ensures n <= |drafted| ==>
      [] + gs[0..n - 1] + drafted[n - 1..n] + gs[n..|gs|] == gs[..n - 1] + [drafted[n - 1]] + gs[n..]
  {
  }
}
