/** What one typed line does to a draft, what a commit does to the live document, and why
    both of them touch one sentence only. */
module Editing {
  import opened Text
  import opened Sentences

  // ---- One line: insert tokens into a sentence ------------------------------------------------

  /** The sentence without its final delimiter; a delimiter that stood alone vanishes. */
  function Body(g: Sentence): seq<string>
    requires g != []
  {
    var w := g[|g| - 1];
    if !Ends(w) then g
    else if |w| == 1 then g[..|g| - 1]
    else g[..|g| - 1] + [w[..|w| - 1]]
  }

  /** A delimiter written as a word of its own. */
  predicate StandsAlone(w: string) {
    |w| == 1 && IsStop(w[0])
  }

  function Delimiter(g: Sentence): string
    requires g != []
  {
    if Closed(g) then [g[|g| - 1][|g[|g| - 1]| - 1]] else ""
  }

  function Attach(ws: seq<string>, delimiter: string): seq<string>
    requires ws != []
  {
    ws[..|ws| - 1] + [ws[|ws| - 1] + delimiter]
  }

  /** The words of sentence `g` after `tokens` were typed at 1-based position `i`. */
  function Edited(g: Sentence, i: int, tokens: seq<string>): seq<string>
    requires g != [] && tokens != [] && 1 <= i <= |Body(g)| + 1
  {
    Attach(Body(g)[..i - 1] + tokens + Body(g)[i - 1..], Delimiter(g))
  }

  /** A typed text as `sscanf` hands it over: it starts with a visible character and the
      line break has been cut off. */
  predicate ValidText(text: string) {
    text != "" && text[0] !in SPACES && '\n' !in text
  }

  /** The draft after typing `text` at word `i` of sentence `n`; `None` is an error reply. */
  function Insert(content: string, n: int, i: int, text: string): Option<string>
    requires 1 <= n && 1 <= i && ValidText(text)
  {
    TextHasTokens(text);
    var gs := SentencesOf(content);
    if content == "" && n == 1 then
      if i == 1 then Some(text) else None
    else if n > |gs| then
      if i == 1 then Some(if content == "" then text else content + " " + text) else None
    else
      SentencesOfShape(content);
      InsertBetween(Flat(gs[..n - 1]), gs[n - 1], Flat(gs[n..]), i, Tokens(text, LINE_SEPS))
  }

  /** The same, once the words before and after the sentence are known. */
  function InsertBetween(before: seq<string>, g: Sentence, after: seq<string>, i: int,
      tokens: seq<string>): Option<string>
    requires g != [] && tokens != [] && 1 <= i
  {
    if i > |Body(g)| + 1 then None else Some(Join(before + Edited(g, i, tokens) + after))
  }

  lemma TextHasTokens(text: string)
    requires ValidText(text)
    ensures Tokens(text, LINE_SEPS) == Tokens(text, EDITOR_SEPS) != []
  {
    TokensSameSeparators(text, LINE_SEPS, EDITOR_SEPS);
    NoTokens(text, LINE_SEPS);
  }

  /** Taking the delimiter off and putting it back keeps words words and a finished
      sentence finished. */
  lemma EditedShape(g: Sentence, i: int, tokens: seq<string>)
    requires g != [] && tokens != [] && 1 <= i <= |Body(g)| + 1
    requires AllTokens(g, EDITOR_SEPS) && AllTokens(tokens, EDITOR_SEPS)
    ensures var e := Edited(g, i, tokens);
      e != [] && AllTokens(e, EDITOR_SEPS) && (Closed(g) ==> Closed(e)) &&
      |e| == |g| + |tokens| - (if StandsAlone(g[|g| - 1]) then 1 else 0)
  {
    var b, d := Body(g), Delimiter(g);
    assert AllTokens(b, EDITOR_SEPS);
    var ws := b[..i - 1] + tokens + b[i - 1..];
    assert AllTokens(ws, EDITOR_SEPS);
    assert Closed(g) ==> Ends(ws[|ws| - 1] + d);
  }

  /** Word insertion, word for word: nothing outside the sentence moves or changes, and
      the words of the sentence are those typed around its old ones. */
  lemma InsertWords(content: string, n: int, i: int, text: string)
    requires 1 <= n <= |SentencesOf(content)| && 1 <= i && ValidText(text)
    ensures var gs, tokens := SentencesOf(content), Tokens(text, EDITOR_SEPS);
      var before, g, after := Flat(gs[..n - 1]), gs[n - 1], Flat(gs[n..]);
      g != [] && tokens != [] &&
      Tokens(content, EDITOR_SEPS) == before + g + after &&
      (Insert(content, n, i, text).Some? <==> i <= |Body(g)| + 1) &&
      (i <= |Body(g)| + 1 ==>
         var ws := Tokens(Insert(content, n, i, text).value, EDITOR_SEPS);
         ws == before + Edited(g, i, tokens) + after &&
         |ws| == |Tokens(content, EDITOR_SEPS)| + |tokens| - (if StandsAlone(g[|g| - 1]) then 1 else 0))
  {
    var gs := SentencesOf(content);
    SentencesOfShape(content);
    TextHasTokens(text);
    var before, g, after := gs[..n - 1], gs[n - 1], gs[n..];
    SplitAt(gs, n - 1);
    FlatParts(before, g, after);
    if i <= |Body(g)| + 1 {
      var tokens := Tokens(text, EDITOR_SEPS);
      EditedShape(g, i, tokens);
      WordsOfParts(Flat(before), g, Flat(after));
      var ws := Flat(before) + Edited(g, i, tokens) + Flat(after);
      assert AllTokens(ws, EDITOR_SEPS);
      TokensOfJoin(ws, EDITOR_SEPS);
    }
  }

  /** The same from the words alone. The stop, if the sentence has one, is taken off its last
      word, or with it if it stands alone; the typed words come behind the first `i - 1` of
      what is left; and that very stop goes to whatever word is last now. */
  lemma InsertedWords(content: string, n: int, i: int, text: string)
    requires 1 <= n <= |SentencesOf(content)| && 1 <= i && ValidText(text)
    ensures var gs, typed, r := SentencesOf(content), Tokens(text, EDITOR_SEPS), Insert(content, n, i, text);
      var g := gs[n - 1];
      g != [] && typed != [] && g[|g| - 1] != "" &&
      var last := g[|g| - 1];
      var c := last[|last| - 1];
      var stop := c in {'.', '!', '?'};
      var left := if !stop then g else g[..|g| - 1] + (if |last| == 1 then [] else [last[..|last| - 1]]);
      (r.Some? <==> i <= |left| + 1) &&
      (r.Some? ==>
         var ws, from := Tokens(r.value, EDITOR_SEPS), |Flat(gs[..n - 1])|;
         var to := from + |left| + |typed|;
         |ws| == to + |Flat(gs[n..])| && ws[..from] == Flat(gs[..n - 1]) && ws[to..] == Flat(gs[n..]) &&
         var now := ws[from..to];
         var end := now[|now| - 1];
         end != "" && (stop ==> end[|end| - 1] == c) &&
         now[..|now| - 1] + [if stop then end[..|end| - 1] else end] == left[..i - 1] + typed + left[i - 1..])
  {
    InsertWords(content, n, i, text);
    SentencesOfShape(content);
    var gs, typed := SentencesOf(content), Tokens(text, EDITOR_SEPS);
    var g := gs[n - 1];
    LastToken(Flat(gs[..n - 1]), g, Flat(gs[n..]));
    if i <= |Body(g)| + 1 {
      var e := Edited(g, i, typed);
      Middle(Flat(gs[..n - 1]), e, Flat(gs[n..]));
      EditedWords(g, i, typed);
    }
  }

  lemma LastToken(a: seq<string>, g: seq<string>, b: seq<string>)
    requires g != [] && AllTokens(a + g + b, EDITOR_SEPS)
    ensures g[|g| - 1] != ""
  {
    assert (a + g + b)[|a| + |g| - 1] == g[|g| - 1];
  }

  lemma Middle<T>(a: seq<T>, e: seq<T>, b: seq<T>)
    ensures var s := a + e + b;
      s[..|a|] == a && s[|a|..|a| + |e|] == e && s[|a| + |e|..] == b
  {
  }

  lemma EditedWords(g: Sentence, i: int, tokens: seq<string>)
    requires g != [] && g[|g| - 1] != "" && tokens != [] && 1 <= i <= |Body(g)| + 1
    requires AllTokens(g, EDITOR_SEPS) && AllTokens(tokens, EDITOR_SEPS)
    ensures var w := g[|g| - 1];
      var c := w[|w| - 1];
      var stop := c in {'.', '!', '?'};
      var left := if !stop then g else g[..|g| - 1] + (if |w| == 1 then [] else [w[..|w| - 1]]);
      var now := Edited(g, i, tokens);
      var end := now[|now| - 1];
      left == Body(g) && |now| == |left| + |tokens| && end != "" && (stop ==> end[|end| - 1] == c) &&
      now[..|now| - 1] + [if stop then end[..|end| - 1] else end] == left[..i - 1] + tokens + left[i - 1..]
  {
    EditedShape(g, i, tokens);
    var ws := Body(g)[..i - 1] + tokens + Body(g)[i - 1..];
    var now := Edited(g, i, tokens);
    assert now[..|now| - 1] == ws[..|ws| - 1];
    assert ws == ws[..|ws| - 1] + [ws[|ws| - 1]];
    assert Closed(g) ==> (ws[|ws| - 1] + Delimiter(g))[..|ws[|ws| - 1]|] == ws[|ws| - 1];
    assert !Closed(g) ==> ws[|ws| - 1] + Delimiter(g) == ws[|ws| - 1];
  }

  lemma SplitAt<T>(s: seq<T>, k: nat)
    requires k < |s|
    ensures s == s[..k] + [s[k]] + s[k + 1..]
  {
  }

  lemma FlatParts(before: seq<Sentence>, g: Sentence, after: seq<Sentence>)
    ensures Flat(before + [g] + after) == Flat(before) + g + Flat(after)
  {
    FlatSnoc(before, g);
    FlatConcat(before + [g], after);
  }

  lemma WordsOfParts(a: seq<string>, b: seq<string>, c: seq<string>)
    requires AllTokens(a + b + c, EDITOR_SEPS)
    ensures AllTokens(a, EDITOR_SEPS) && AllTokens(b, EDITOR_SEPS) && AllTokens(c, EDITOR_SEPS)
  {
    var s := a + b + c;
    assert forall k | 0 <= k < |a| :: a[k] == s[k];
    assert forall k | 0 <= k < |b| :: b[k] == s[|a| + k];
    assert forall k | 0 <= k < |c| :: c[k] == s[|a| + |b| + k];
  }

  // ---- The sentence view of a line ------------------------------------------------------------

  /** What a session has made of its sentence; a draft of a new sentence starts empty. */
  type Version = seq<Sentence>

  /** The same line, seen from the locked sentence alone. */
  function LocalInsert(v: Version, i: int, text: string): Option<Version>
    requires 1 <= i && ValidText(text)
  {
    TextHasTokens(text);
    if v == [] then
      if i == 1 then Some(SentencesOf(text)) else None
    else if v[0] == [] || i > |Body(v[0])| + 1 then None
    else Some(Parse(Edited(v[0], i, Tokens(text, EDITOR_SEPS))) + v[1..])
  }

  /** `content` is the sentences `before`, then the version, then `after`, and a version
      that is still empty stands at the end of finished sentences. */
  ghost predicate Embeds(content: string, before: seq<Sentence>, v: Version, after: seq<Sentence>) {
    SentencesOf(content) == before + v + after &&
    (v == [] ==> after == [] && (before == [] || Closed(before[|before| - 1])))
  }

  lemma EmbedsShape(content: string, before: seq<Sentence>, v: Version, after: seq<Sentence>)
    requires Embeds(content, before, v, after)
    ensures WellFormed(before) && WellFormed(v) && WellFormed(after)
    ensures before != [] ==> Closed(before[|before| - 1])
    ensures v != [] && after != [] ==> Closed(v[|v| - 1])
    ensures AllTokens(Flat(before), EDITOR_SEPS) && AllTokens(Flat(v), EDITOR_SEPS) && AllTokens(Flat(after), EDITOR_SEPS)
  {
    hide Tokens, Parse, Flat;
    SentencesOfShape(content);
    var gs := before + v + after;
    assert WellFormed(gs);
    assert forall k | 0 <= k < |before| :: before[k] == gs[k];
    assert forall k | 0 <= k < |v| :: v[k] == gs[|before| + k];
    assert forall k | 0 <= k < |after| :: after[k] == gs[|before| + |v| + k];
    FlatConcat(before + v, after);
    FlatConcat(before, v);
    WordsOfParts(Flat(before), Flat(v), Flat(after));
  }

  /** A line acts on the locked sentence and leaves the rest of the draft alone. */
  lemma InsertIsLocal(content: string, before: seq<Sentence>, v: Version, after: seq<Sentence>, i: int, text: string)
    requires Embeds(content, before, v, after) && 1 <= i && ValidText(text)
    ensures var r, v' := Insert(content, |before| + 1, i, text), LocalInsert(v, i, text);
      (r.Some? <==> v'.Some?) &&
      (r.Some? ==> v'.value != [] && Embeds(r.value, before, v'.value, after))
  {
    TextHasTokens(text);
    EmbedsShape(content, before, v, after);
    if v == [] {
      AppendIsLocal(content, before, i, text);
    } else {
      EditIsLocal(content, before, v, after, i, text);
    }
  }

  lemma AppendIsLocal(content: string, before: seq<Sentence>, i: int, text: string)
    requires Embeds(content, before, [], []) && 1 <= i && ValidText(text)
    ensures var r := Insert(content, |before| + 1, i, text);
      (r.Some? <==> i == 1) && (r.Some? ==> Embeds(r.value, before, SentencesOf(text), [])) &&
      SentencesOf(text) != []
  {
    hide Tokens, Parse, InsertBetween, Flat, Closed, ValidText;
    TextHasSentences(text);
    NothingParsed();
    assert before + [] + [] == before == SentencesOf(content);
    if i == 1 {
      var r := Insert(content, |before| + 1, i, text).value;
      assert r == if content == "" then text else content + " " + text;
      SentencesAcross(content, text);
      assert before + SentencesOf(text) + [] == before + SentencesOf(text);
    }
  }

  lemma TextHasSentences(text: string)
    requires ValidText(text)
    ensures SentencesOf(text) != []
  {
    hide Tokens;
    TextHasTokens(text);
  }

  lemma NothingParsed()
    ensures SentencesOf("") == []
  {
  }

  lemma AfterClosed(a: seq<string>, b: seq<string>)
    requires Parse(a) == [] || Closed(Parse(a)[|Parse(a)| - 1])
    ensures Parse(a + b) == Parse(a) + Parse(b)
  {
    if a != [] {
      ParseNonemptyClosed(a);
    }
    ParseConcat(a, b);
  }

  /** Text that is appended to finished sentences keeps its own. */
  lemma SentencesAcross(content: string, text: string)
    requires var gs := SentencesOf(content); gs == [] || Closed(gs[|gs| - 1])
    ensures SentencesOf(content + " " + text) == SentencesOf(content) + SentencesOf(text)
  {
    hide Tokens, Parse, Closed;
    TokensAcrossSeparator(content, ' ', text, EDITOR_SEPS);
    AfterClosed(Tokens(content, EDITOR_SEPS), Tokens(text, EDITOR_SEPS));
  }

  /** The draft after a line, sentence by sentence. */
  lemma InsertSentences(content: string, before: seq<Sentence>, g: Sentence, rest: seq<Sentence>, i: int, text: string)
    requires SentencesOf(content) == before + [g] + rest && g != [] && 1 <= i && ValidText(text)
    requires before != [] ==> Closed(before[|before| - 1])
    requires WellFormed(before) && WellFormed(rest) && (rest != [] ==> Closed(g))
    ensures var r := Insert(content, |before| + 1, i, text);
      (r.Some? <==> i <= |Body(g)| + 1) &&
      (r.Some? ==> Tokens(text, EDITOR_SEPS) != [] &&
                   SentencesOf(r.value) == before + Parse(Edited(g, i, Tokens(text, EDITOR_SEPS))) + rest)
  {
    var gs, n, tokens := SentencesOf(content), |before| + 1, Tokens(text, EDITOR_SEPS);
    assert gs[..n - 1] == before && gs[n - 1] == g && gs[n..] == rest;
    InsertWords(content, n, i, text);
    if i <= |Body(g)| + 1 {
      SentencesOfShape(content);
      EditedShape(g, i, tokens);
      ParseAround(before, Edited(g, i, tokens), rest);
    }
  }

  lemma EditIsLocal(content: string, before: seq<Sentence>, v: Version, after: seq<Sentence>, i: int, text: string)
    requires v != [] && Embeds(content, before, v, after) && 1 <= i && ValidText(text)
    ensures var r, v' := Insert(content, |before| + 1, i, text), LocalInsert(v, i, text);
      (r.Some? <==> v'.Some?) &&
      (r.Some? ==> v'.value != [] && Embeds(r.value, before, v'.value, after))
  {
    var g, tail := v[0], v[1..];
    EmbedsShape(content, before, v, after);
    assert IsSentence(g);
    TextHasTokens(text);
    Regroup(before, [g], tail, after);
    assert v == [g] + tail;
    assert WellFormed(tail) && (tail + after != [] ==> Closed(g));
    WellFormedConcat(tail, after);
    InsertSentences(content, before, g, tail + after, i, text);
    if i <= |Body(g)| + 1 {
      var p := Parse(Edited(g, i, Tokens(text, EDITOR_SEPS)));
      assert p != [];
      Regroup(before, p, tail, after);
    }
  }

  lemma Regroup<T>(a: seq<T>, p: seq<T>, b: seq<T>, c: seq<T>)
    ensures a + (p + b) + c == a + p + (b + c)
  {
  }

  /** Words put between finished sentences parse on their own. */
  lemma ParseAround(before: seq<Sentence>, e: seq<string>, rest: seq<Sentence>)
    requires WellFormed(before) && WellFormed(rest) && e != []
    requires before != [] ==> Closed(before[|before| - 1])
    requires rest != [] ==> Ends(e[|e| - 1])
    ensures Parse(Flat(before) + e + Flat(rest)) == before + Parse(e) + rest
  {
    ParseSound(e);
    ParseNonemptyClosed(e);
    WellFormedConcat(before, Parse(e));
    WellFormedConcat(before + Parse(e), rest);
    FlatConcat(before + Parse(e), rest);
    FlatConcat(before, Parse(e));
    ParseOfFlat(before + Parse(e) + rest);
  }

  // ---- Commit: splice one sentence into the live document -------------------------------------

  /** The content a commit of sentence `n` writes: the live document with sentence `n`
      taken from the draft, or the draft's last sentence appended. */
  function Merge(live: string, n: int, draft: string): string
    requires 1 <= n
  {
    var current, drafted := SentencesOf(live), SentencesOf(draft);
    if current == [] then draft
    else if n > |current| then
      live + " " + if drafted == [] then "" else Join(drafted[|drafted| - 1])
    else
      Join(Flat(current[..n - 1] + (if n <= |drafted| then [drafted[n - 1]] else []) + current[n..]))
  }

  /** WRITE lets in the sentences there are, and one more when the last one is finished. */
  predicate Admissible(live: string, n: int) {
    var gs := SentencesOf(live);
    1 <= n && (n <= |gs| || (n == |gs| + 1 && (gs == [] || Closed(gs[|gs| - 1]))))
  }

  /** Sentence `n` of the document as a version: empty when it is still to be written. */
  function Slot(live: string, n: int): Version
    requires Admissible(live, n)
  {
    var gs := SentencesOf(live);
    if n <= |gs| then [gs[n - 1]] else []
  }

  function Before(live: string, n: int): seq<Sentence>
    requires Admissible(live, n)
  {
    SentencesOf(live)[..n - 1]
  }

  function After(live: string, n: int): seq<Sentence>
    requires Admissible(live, n)
  {
    var gs := SentencesOf(live);
    if n <= |gs| then gs[n..] else []
  }

  lemma SlotEmbeds(live: string, n: int)
    requires Admissible(live, n)
    ensures Embeds(live, Before(live, n), Slot(live, n), After(live, n))
    ensures |Before(live, n)| == n - 1
  {
    hide SentencesOf;
  }

  /** The one sentence of a version that a commit takes. */
  function Taken(slot: Version, v: Version): Sentence
    requires v != []
  {
    if slot == [] then v[|v| - 1] else v[0]
  }

  /** A draft holds version `v` of sentence `n`; nothing follows a new sentence. */
  ghost predicate Drafts(draft: string, n: int, slot: Version, v: Version) {
    v != [] && exists before, after :: Embeds(draft, before, v, after) && |before| == n - 1 && (slot == [] ==> after == [])
  }

  /** What a commit writes depends on the live document and the version only, and it is
      the live document with one sentence replaced or appended. */
  lemma MergeIsLocal(live: string, n: int, draft: string, v: Version)
    requires Admissible(live, n) && Drafts(draft, n, Slot(live, n), v)
    requires Slot(live, n) != [] && Closed(Slot(live, n)[0]) ==> Closed(v[0])
    ensures SentencesOf(live) == [] ==> Merge(live, n, draft) == draft && SentencesOf(draft) == v
    ensures var slot := Slot(live, n);
      SentencesOf(live) != [] ==>
        Merge(live, n, draft) ==
          (if slot == [] then live + " " + Join(v[|v| - 1]) else Join(Flat(Before(live, n) + [v[0]] + After(live, n)))) &&
        SentencesOf(Merge(live, n, draft)) == Before(live, n) + [Taken(slot, v)] + After(live, n)
  {
    hide Tokens, Parse, Flat, Join, AllTokens, WellFormed, FirstLength;
    var slot := Slot(live, n);
    var before, after :| Embeds(draft, before, v, after) && |before| == n - 1 && (slot == [] ==> after == []);
    var drafted := SentencesOf(draft);
    assert drafted == before + v + after;
    EmbedsShape(draft, before, v, after);
    SlotEmbeds(live, n);
    EmbedsShape(live, Before(live, n), slot, After(live, n));
    if SentencesOf(live) == [] {
      assert before == [] && slot == [] && after == [];
    } else if slot == [] {
      assert drafted[|drafted| - 1] == v[|v| - 1];
      AppendedSentence(live, v, n);
    } else {
      assert drafted[n - 1] == v[0];
      ReplacedSentence(live, n, v[0], draft, before, v, after);
    }
  }

  lemma AppendedSentence(live: string, v: Version, n: int)
    requires Admissible(live, n) && Slot(live, n) == [] && SentencesOf(live) != []
    requires v != [] && WellFormed(v) && AllTokens(Flat(v), EDITOR_SEPS)
    ensures SentencesOf(live + " " + Join(v[|v| - 1])) == Before(live, n) + [v[|v| - 1]] + After(live, n)
  {
    hide Flat, Join, FirstLength, Tokens, Parse;
    var g := v[|v| - 1];
    WordsOfFlat(v, EDITOR_SEPS);
    TokensOfJoin(g, EDITOR_SEPS);
    ParseSentence(g);
    assert SentencesOf(Join(g)) == [g];
    SentencesAcross(live, Join(g));
    assert Before(live, n) == SentencesOf(live) && After(live, n) == [];
  }

  lemma ReplacedSentence(live: string, n: int, g: Sentence, draft: string, before: seq<Sentence>,
      v: Version, after: seq<Sentence>)
    requires Admissible(live, n) && Slot(live, n) != [] && (Closed(Slot(live, n)[0]) ==> Closed(g))
    requires v != [] && g == v[0] && Embeds(draft, before, v, after)
    ensures SentencesOf(Join(Flat(Before(live, n) + [g] + After(live, n)))) == Before(live, n) + [g] + After(live, n)
  {
    hide Parse, Tokens, Join;
    SlotEmbeds(live, n);
    EmbedsShape(live, Before(live, n), Slot(live, n), After(live, n));
    EmbedsShape(draft, before, v, after);
    WordsOfFlat(v, EDITOR_SEPS);
    var a, b := Before(live, n), After(live, n);
    assert IsSentence(g) && AllTokens(g, EDITOR_SEPS);
    assert WellFormed([g]);
    WellFormedConcat(a, [g]);
    WellFormedConcat(a + [g], b);
    FlatParts(a, g, b);
    ParseOfRender(a + [g] + b);
  }

  // ---- A write session ------------------------------------------------------------------------

  /** A line of a write session, `<word index> <content>`. */
  datatype Line = Line(index: int, text: string)

  /** The draft after one more line; the first accepted line starts it from `live`. */
  function Apply(live: string, n: int, draft: Option<string>, line: Line): Option<string>
    requires 1 <= n
  {
    if line.index < 1 || !ValidText(line.text) then draft
    else
      var r := Insert(if draft.Some? then draft.value else live, n, line.index, line.text);
      if r.Some? then r else draft
  }

  function Typed(live: string, n: int, lines: seq<Line>): Option<string>
    requires 1 <= n
  {
    if lines == [] then None
    else Apply(live, n, Typed(live, n, lines[..|lines| - 1]), lines[|lines| - 1])
  }

  /** The document after a session that ran with nobody else around. */
  function SessionAlone(live: string, n: int, lines: seq<Line>): string
    requires 1 <= n
  {
    var draft := Typed(live, n, lines);
    if draft.Some? then Merge(live, n, draft.value) else live
  }

  function ApplyLocal(slot: Version, v: Option<Version>, line: Line): Option<Version> {
    if line.index < 1 || !ValidText(line.text) then v
    else
      var r := LocalInsert(if v.Some? then v.value else slot, line.index, line.text);
      if r.Some? then r else v
  }

  /** The version a session makes of its sentence, computed from that sentence alone. */
  function TypedLocal(slot: Version, lines: seq<Line>): Option<Version> {
    if lines == [] then None
    else ApplyLocal(slot, TypedLocal(slot, lines[..|lines| - 1]), lines[|lines| - 1])
  }

  ghost predicate Follows(draft: Option<string>, n: int, slot: Version, v: Option<Version>) {
    (draft.Some? <==> v.Some?) && (draft.Some? ==> Drafts(draft.value, n, slot, v.value))
  }

  /** A line keeps draft and version together, whatever the document was when the draft
      was started, as long as the locked sentence was the same. */
  lemma ApplyFollows(live: string, n: int, draft: Option<string>, v: Option<Version>, line: Line)
    requires Admissible(live, n) && Follows(draft, n, Slot(live, n), v)
    ensures Follows(Apply(live, n, draft, line), n, Slot(live, n), ApplyLocal(Slot(live, n), v, line))
  {
    hide Tokens, Parse, Flat, Join, AllTokens, WellFormed, FirstLength, Insert, LocalInsert, Embeds;
    if 1 <= line.index && ValidText(line.text) {
      var slot := Slot(live, n);
      if draft.Some? {
        var before, after :| Embeds(draft.value, before, v.value, after) && |before| == n - 1 && (slot == [] ==> after == []);
        InsertIsLocal(draft.value, before, v.value, after, line.index, line.text);
      } else {
        SlotEmbeds(live, n);
        InsertIsLocal(live, Before(live, n), slot, After(live, n), line.index, line.text);
      }
    }
  }

  lemma {:induction false} TypedFollows(live: string, n: int, lines: seq<Line>)
    requires Admissible(live, n)
    ensures Follows(Typed(live, n, lines), n, Slot(live, n), TypedLocal(Slot(live, n), lines))
  {
    hide Tokens, Parse, Flat, Join, AllTokens, WellFormed, FirstLength, Apply, ApplyLocal, SentencesOf,
      Drafts;
    if lines != [] {
      var init := lines[..|lines| - 1];
      TypedFollows(live, n, init);
      ApplyFollows(live, n, Typed(live, n, init), TypedLocal(Slot(live, n), init), lines[|lines| - 1]);
    }
  }

  /** Typing never opens a finished sentence again. */
  lemma {:induction false} StaysClosed(slot: Version, lines: seq<Line>)
    requires slot != [] && Closed(slot[0]) && AllTokens(slot[0], EDITOR_SEPS)
    ensures var v := TypedLocal(slot, lines);
      v.Some? ==> v.value != [] && Closed(v.value[0]) && AllTokens(v.value[0], EDITOR_SEPS)
  {
    if lines != [] {
      var init, line := lines[..|lines| - 1], lines[|lines| - 1];
      StaysClosed(slot, init);
      var v := TypedLocal(slot, init);
      if 1 <= line.index && ValidText(line.text) {
        LocalInsertClosed(if v.Some? then v.value else slot, line.index, line.text);
      }
    }
  }

  lemma LocalInsertClosed(v: Version, i: int, text: string)
    requires 1 <= i && ValidText(text) && v != [] && Closed(v[0]) && AllTokens(v[0], EDITOR_SEPS)
    ensures var r := LocalInsert(v, i, text);
      r.Some? ==> r.value != [] && Closed(r.value[0]) && AllTokens(r.value[0], EDITOR_SEPS)
  {
    TextHasTokens(text);
    if i <= |Body(v[0])| + 1 {
      var e := Edited(v[0], i, Tokens(text, EDITOR_SEPS));
      EditedShape(v[0], i, Tokens(text, EDITOR_SEPS));
      ParseNonemptyClosed(e);
      ParseSound(e);
      WordsOfFlat(Parse(e), EDITOR_SEPS);
    }
  }

  lemma SlotClosedKept(live: string, n: int, lines: seq<Line>)
    requires Admissible(live, n)
    ensures var slot := Slot(live, n); var v := TypedLocal(slot, lines);
      slot != [] && Closed(slot[0]) && v.Some? && v.value != [] ==> Closed(v.value[0])
  {
    var slot := Slot(live, n);
    if slot != [] && Closed(slot[0]) {
      SentencesOfShape(live);
      StaysClosed(slot, lines);
    }
  }

  /** A draft that was started from an older document commits exactly like one typed now. */
  lemma CommitAsAlone(live: string, n: int, lines: seq<Line>, draft: Option<string>)
    requires Admissible(live, n) && Follows(draft, n, Slot(live, n), TypedLocal(Slot(live, n), lines))
    requires SentencesOf(live) == [] ==> draft == Typed(live, n, lines)
    ensures draft.Some? <==> Typed(live, n, lines).Some?
    ensures draft.Some? ==> Merge(live, n, draft.value) == SessionAlone(live, n, lines)
  {
    hide Tokens, Parse, Flat, Join, AllTokens, WellFormed, FirstLength, Typed, TypedLocal, Embeds,
      SentencesOf;
    TypedFollows(live, n, lines);
    if draft.Some? {
      var v := TypedLocal(Slot(live, n), lines).value;
      SlotClosedKept(live, n, lines);
      MergeIsLocal(live, n, draft.value, v);
      MergeIsLocal(live, n, Typed(live, n, lines).value, v);
    }
  }

  /** A commit changes no sentence but its own, and leaves every other sentence that could
      be locked before lockable. */
  lemma SessionFrame(live: string, n: int, lines: seq<Line>, m: int)
    requires Admissible(live, n) && Admissible(live, m) && m != n && SentencesOf(live) != []
    ensures var live' := SessionAlone(live, n, lines);
      SentencesOf(live') != [] && Admissible(live', m) && Slot(live', m) == Slot(live, m)
  {
    hide Tokens, Parse, Flat, Join, AllTokens, WellFormed, FirstLength, Merge, Typed, TypedLocal, Embeds;
    TypedFollows(live, n, lines);
    if Typed(live, n, lines).Some? {
      var v := TypedLocal(Slot(live, n), lines).value;
      SlotClosedKept(live, n, lines);
      MergeIsLocal(live, n, Typed(live, n, lines).value, v);
      SpliceFrame(SentencesOf(live), SentencesOf(SessionAlone(live, n, lines)), n, Taken(Slot(live, n), v), m);
    }
  }

  lemma SpliceFrame(gs: seq<Sentence>, gs': seq<Sentence>, n: int, g: Sentence, m: int)
    requires gs != [] && 1 <= n <= |gs| + 1 && 1 <= m <= |gs| + 1 && m != n
    requires gs' == gs[..n - 1] + [g] + if n <= |gs| then gs[n..] else []
    ensures |gs'| == (if n <= |gs| then |gs| else |gs| + 1)
    ensures m <= |gs| ==> gs'[m - 1] == gs[m - 1]
    ensures n <= |gs| ==> gs'[|gs'| - 1] == if n == |gs| then g else gs[|gs| - 1]
  {
  }

  // ---- What a commit keeps and what it loses --------------------------------------------------

  lemma {:induction false} FlatLonger(gs: seq<Sentence>)
    requires forall k | 0 <= k < |gs| :: gs[k] != []
    ensures |Flat(gs)| >= |gs|
    ensures |gs| >= 2 ==> |Flat(gs)| > |gs[0]| && |Flat(gs)| > |gs[|gs| - 1]|
  {
    if gs != [] {
      FlatLonger(gs[1..]);
    }
  }

  /** A commit keeps every word of its version exactly when the version still is one
      sentence; a version that was split in two loses words, unless the document was empty. */
  lemma CommitKeepsVersion(live: string, n: int, draft: string, v: Version)
    requires Admissible(live, n) && Drafts(draft, n, Slot(live, n), v)
    requires Slot(live, n) != [] && Closed(Slot(live, n)[0]) ==> Closed(v[0])
    ensures Tokens(Merge(live, n, draft), EDITOR_SEPS) == Flat(Before(live, n)) + Flat(v) + Flat(After(live, n))
            <==> SentencesOf(live) == [] || |v| == 1
  {
    hide Parse, Join, AllTokens, WellFormed;
    var a, b, slot := Before(live, n), After(live, n), Slot(live, n);
    MergeIsLocal(live, n, draft, v);
    SentencesOfShape(Merge(live, n, draft));
    DraftShape(draft, n, slot, v);
    if SentencesOf(live) == [] {
      assert Flat(a) == Flat(b) == [];
      EmptyAround(Flat(v));
    } else {
      OneSentenceOfMany(Flat(a), v, Taken(slot, v), Flat(b));
      FlatParts(a, Taken(slot, v), b);
    }
  }

  lemma EmptyAround<T>(s: seq<T>)
    ensures [] + s + [] == s
  {
  }

  lemma LongerMiddle<T>(a: seq<T>, g: seq<T>, h: seq<T>, b: seq<T>)
    requires |g| < |h|
    ensures a + g + b != a + h + b
  {
    assert |a + g + b| < |a + h + b|;
  }

  lemma OneSentenceOfMany(a: seq<string>, v: Version, g: Sentence, b: seq<string>)
    requires v != [] && (g == v[0] || g == v[|v| - 1]) && WellFormed(v)
    ensures a + g + b == a + Flat(v) + b <==> |v| == 1
  {
    FlatLonger(v);
    if |v| == 1 {
      assert Flat(v) == g by {
        assert v == [g] + [];
        FlatCons(g, []);
      }
    } else {
      LongerMiddle(a, g, Flat(v), b);
    }
  }

  lemma DraftShape(draft: string, n: int, slot: Version, v: Version)
    requires Drafts(draft, n, slot, v)
    ensures WellFormed(v) && AllTokens(Flat(v), EDITOR_SEPS)
  {
    var before, after :| Embeds(draft, before, v, after) && |before| == n - 1 && (slot == [] ==> after == []);
    EmbedsShape(draft, before, v, after);
  }

  /** The commit of an existing sentence, as an update of the sentence list. */
  lemma MergeAsUpdate(live: string, n: int, draft: string, v: Version)
    requires Admissible(live, n) && n <= |SentencesOf(live)| && Drafts(draft, n, Slot(live, n), v)
    requires Closed(Slot(live, n)[0]) ==> Closed(v[0])
    ensures var gs := SentencesOf(live)[n - 1 := v[0]];
      Merge(live, n, draft) == Join(Flat(gs)) && SentencesOf(Merge(live, n, draft)) == gs
  {
    hide Tokens, Parse, Flat, Join, AllTokens, WellFormed, FirstLength, SentencesOf, Embeds, Merge;
    MergeIsLocal(live, n, draft, v);
    UpdateAsSplice(SentencesOf(live), n - 1, v[0]);
  }

  lemma UpdateAsSplice<T>(s: seq<T>, i: nat, x: T)
    requires i < |s|
    ensures s[..i] + [x] + s[i + 1..] == s[i := x]
  {
  }

  lemma UpdatesCommute<T>(s: seq<T>, i: nat, x: T, j: nat, y: T)
    requires i < j < |s|
    ensures s[i := x][j := y] == s[j := y][i := x]
  {
  }

  lemma AppendAfterUpdate<T>(s: seq<T>, i: nat, x: T, y: T)
    requires i < |s|
    ensures s[..|s|] + [y] + [] == s + [y]
    ensures (s + [y])[i := x] == s[i := x] + [y]
  {
  }

  /** Two sessions that opened the same document on different sentences leave the same
      document, character by character, in either commit order. */
  lemma CommitsCommute(live: string, n: int, lines: seq<Line>, m: int, lines': seq<Line>)
    requires Admissible(live, n) && Admissible(live, m) && n < m && SentencesOf(live) != []
    requires Typed(live, n, lines).Some? && Typed(live, m, lines').Some?
    ensures var d, d' := Typed(live, n, lines).value, Typed(live, m, lines').value;
      Merge(Merge(live, n, d), m, d') == Merge(Merge(live, m, d'), n, d)
  {
    hide Tokens, Parse, Flat, Join, AllTokens, WellFormed, FirstLength, SentencesOf, Apply, ApplyLocal;
    var d, d' := Typed(live, n, lines).value, Typed(live, m, lines').value;
    TypedFollows(live, n, lines);
    TypedFollows(live, m, lines');
    SlotClosedKept(live, n, lines);
    SlotClosedKept(live, m, lines');
    SessionFrame(live, n, lines, m);
    SessionFrame(live, m, lines', n);
    assert Merge(live, n, d) == SessionAlone(live, n, lines) && Merge(live, m, d') == SessionAlone(live, m, lines');
    var v, v' := TypedLocal(Slot(live, n), lines).value, TypedLocal(Slot(live, m), lines').value;
    if m <= |SentencesOf(live)| {
      ReplacementsCommute(live, n, d, v, m, d', v');
    } else {
      AppendCommutes(live, n, d, v, m, d', v');
    }
  }

  /** Both drafts belong to sentence slots of `live` that the other commit leaves alone. */
  ghost predicate Independent(live: string, n: int, d: string, v: Version, m: int, d': string, v': Version)
    requires Admissible(live, n) && Admissible(live, m)
  {
    1 <= n < m && n <= |SentencesOf(live)| &&
    Drafts(d, n, Slot(live, n), v) && (Closed(Slot(live, n)[0]) ==> Closed(v[0])) &&
    Drafts(d', m, Slot(live, m), v') && (Slot(live, m) != [] && Closed(Slot(live, m)[0]) ==> Closed(v'[0])) &&
    Admissible(Merge(live, n, d), m) && Slot(Merge(live, n, d), m) == Slot(live, m) &&
    Admissible(Merge(live, m, d'), n) && Slot(Merge(live, m, d'), n) == Slot(live, n)
  }

  lemma ReplacementsCommute(live: string, n: int, d: string, v: Version, m: int, d': string, v': Version)
    requires 1 <= n < m <= |SentencesOf(live)|
    requires Drafts(d, n, Slot(live, n), v) && (Closed(Slot(live, n)[0]) ==> Closed(v[0]))
    requires Drafts(d', m, Slot(live, m), v') && (Closed(Slot(live, m)[0]) ==> Closed(v'[0]))
    ensures Merge(Merge(live, n, d), m, d') == Merge(Merge(live, m, d'), n, d)
  {
    hide Tokens, Parse, Flat, Join, AllTokens, WellFormed, FirstLength, SentencesOf, Embeds, Merge, Slot,
      Closed;
    var gs := SentencesOf(live);
    var one, other := gs[n - 1 := v[0]][m - 1 := v'[0]], gs[m - 1 := v'[0]][n - 1 := v[0]];
    assert Merge(Merge(live, n, d), m, d') == Join(Flat(one)) by { TwoUpdates(live, n, d, v, m, d', v'); }
    assert Merge(Merge(live, m, d'), n, d) == Join(Flat(other)) by { TwoUpdates(live, m, d', v', n, d, v); }
    assert one == other by { UpdatesCommute(gs, n - 1, v[0], m - 1, v'[0]); }
  }

  lemma TwoUpdates(live: string, n: int, d: string, v: Version, m: int, d': string, v': Version)
    requires 1 <= n <= |SentencesOf(live)| && 1 <= m <= |SentencesOf(live)| && n != m
    requires Drafts(d, n, Slot(live, n), v) && (Closed(Slot(live, n)[0]) ==> Closed(v[0]))
    requires Drafts(d', m, Slot(live, m), v') && (Closed(Slot(live, m)[0]) ==> Closed(v'[0]))
    ensures Merge(Merge(live, n, d), m, d') == Join(Flat(SentencesOf(live)[n - 1 := v[0]][m - 1 := v'[0]]))
  {
    hide Tokens, Parse, Flat, Join, AllTokens, WellFormed, FirstLength, SentencesOf, Embeds, Merge, Closed;
    MergeAsUpdate(live, n, d, v);
    MergeAsUpdate(Merge(live, n, d), m, d', v');
  }

  lemma FlatNonempty(content: string)
    requires SentencesOf(content) != []
    ensures Flat(SentencesOf(content)) != []
  {
    SentencesOfShape(content);
  }

  lemma AppendCommutes(live: string, n: int, d: string, v: Version, m: int, d': string, v': Version)
    requires Admissible(live, n) && Admissible(live, m) && Independent(live, n, d, v, m, d', v')
    requires m > |SentencesOf(live)|
    ensures Merge(Merge(live, n, d), m, d') == Merge(Merge(live, m, d'), n, d)
  {
    hide Tokens, Parse, Flat, Join, AllTokens, FirstLength, Embeds, SentencesOf, Merge;
    var gs, g := SentencesOf(live), v'[|v'| - 1];
    var first, second, updated := Merge(live, n, d), Merge(live, m, d'), SentencesOf(live)[n - 1 := v[0]];
    MergeAsUpdate(live, n, d, v);
    assert Merge(first, m, d') == first + " " + Join(g) by { MergeIsLocal(first, m, d', v'); }
    assert SentencesOf(second) == gs + [g] by {
      MergeIsLocal(live, m, d', v');
      AppendAfterUpdate(gs, n - 1, v[0], g);
    }
    assert Merge(second, n, d) == Join(Flat(updated + [g])) by {
      AppendAfterUpdate(gs, n - 1, v[0], g);
      MergeAsUpdate(second, n, d, v);
    }
    FlatNonempty(first);
    DraftShape(d', m, Slot(live, m), v');
    FlatSnoc(updated, g);
    JoinConcat(Flat(updated), g);
  }

  /** A word that neither ends a sentence nor starts with an invisible character. */
  predicate Plain(w: string) {
    IsToken(w, SPACES) && !Ends(w)
  }

  /** Typing `x. y` between the two words of the sentence `a b.` cuts `y b.` off: the draft
      holds all four words, the committed document only `a x.`. */
  lemma SplitVersionLosesWords(a: string, b: string, x: string, y: string)
    requires Plain(a) && Plain(b) && Plain(x) && Plain(y)
    ensures var live, line := Join([a, b + "."]), Line(2, Join([x + ".", y]));
      Typed(live, 1, [line]) == Some(Join([a, x + ".", y, b + "."])) &&
      SessionAlone(live, 1, [line]) == Join([a, x + "."])
  {
    var b', x' := b + ".", x + ".";
    var live, line, draft := Join([a, b']), Line(2, Join([x', y])), Join([a, x', y, b']);
    InsertSample(a, b, x', y);
    TypedOne(live, 1, line);
    MergeSample(a, b', x', y);
    assert SessionAlone(live, 1, [line]) == Merge(live, 1, draft);
  }

  lemma InsertSample(a: string, b: string, x': string, y: string)
    requires Plain(a) && Plain(b) && IsToken(x', SPACES) && IsToken(y, SPACES)
    ensures ValidText(Join([x', y]))
    ensures Insert(Join([a, b + "."]), 1, 2, Join([x', y])) == Some(Join([a, x', y, b + "."]))
  {
    var g, text := [a, b + "."], Join([x', y]);
    FlatCons(g, []);
    SampleSentences(g, [g], Join(g));
    TokensOfJoin([x', y], EDITOR_SEPS);
    assert [x', y][1..] == [y] && text == x' + " " + y;
    TextHasTokens(text);
    EditedSample(a, b, x', y);
    EmptyAround([a, x', y, b + "."]);
    SpliceOnly(g, g);
  }

  lemma MergeSample(a: string, b': string, x': string, y: string)
    requires IsToken(a, EDITOR_SEPS) && IsToken(b', EDITOR_SEPS) && IsToken(x', EDITOR_SEPS) && IsToken(y, EDITOR_SEPS)
    requires Ends(b') && Ends(x') && !Ends(a) && !Ends(y)
    ensures Merge(Join([a, b']), 1, Join([a, x', y, b'])) == Join([a, x'])
  {
    var g, h, rest := [a, b'], [a, x'], [y, b'];
    FlatCons(g, []);
    SampleSentences(g, [g], Join(g));
    FlatCons(h, [rest]);
    FlatCons(rest, []);
    assert h + rest == [a, x', y, b'];
    SampleSentences(h + rest, [h, rest], Join(h + rest));
    SpliceOnly(g, h);
    assert Flat([h]) == h by { FlatCons(h, []); }
    assert Merge(Join(g), 1, Join(h + rest)) == Join(Flat([h]));
  }

  lemma TypedOne(live: string, n: int, line: Line)
    requires 1 <= n
    ensures Typed(live, n, [line]) == Apply(live, n, None, line)
  {
    assert [line][..0] == [] && Typed(live, n, []) == None;
  }

  lemma SpliceOnly<T>(was: T, now: T)
    ensures [was][..0] == [] && [was][1..] == [] && [was][..0] + [now] + [was][1..] == [now]
  {
  }

  lemma EditedSample(a: string, b: string, x': string, y: string)
    requires b != ""
    ensures Body([a, b + "."]) == [a, b]
    ensures Edited([a, b + "."], 2, [x', y]) == [a, x', y, b + "."]
  {
    var b' := b + ".";
    assert b'[..|b'| - 1] == b && [a, b'][..1] == [a];
    assert [a, b][..1] + [x', y] + [a, b][1..] == [a, x', y, b];
    assert [a, x', y, b][..3] == [a, x', y];
  }

  lemma SampleSentences(ws: seq<string>, gs: seq<Sentence>, text: string)
    requires AllTokens(ws, EDITOR_SEPS) && WellFormed(gs) && Flat(gs) == ws && Join(ws) == text
    ensures Tokens(text, EDITOR_SEPS) == ws && SentencesOf(text) == gs
  {
    TokensOfJoin(ws, EDITOR_SEPS);
    ParseOfFlat(gs);
  }
}
