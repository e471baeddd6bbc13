/** Words grouped into sentences: a sentence ends at a word whose last character is
    `.`, `!` or `?`, and only the last sentence of a document may lack such an end. */
module Sentences {
  import opened Text

  type Sentence = seq<string>

  predicate IsStop(c: char) {
    c == '.' || c == '!' || c == '?'
  }

  predicate Ends(w: string) {
    w != "" && IsStop(w[|w| - 1])
  }

  predicate Closed(g: Sentence) {
    g != [] && Ends(g[|g| - 1])
  }

  /** A non-empty run of words of which at most the last one ends a sentence. */
  predicate IsSentence(g: Sentence) {
    g != [] && forall k | 0 <= k < |g| - 1 :: !Ends(g[k])
  }

  /** What the parsers produce: sentences, all but the last one closed. */
  predicate WellFormed(gs: seq<Sentence>) {
    (forall k | 0 <= k < |gs| :: IsSentence(gs[k])) &&
    (forall k | 0 <= k < |gs| - 1 :: Closed(gs[k]))
  }

  function Flat(gs: seq<Sentence>): seq<string> {
    if gs == [] then [] else gs[0] + Flat(gs[1..])
  }

  /** Number of words in the first sentence. */
  function FirstLength(ws: seq<string>): (n: nat)
    requires ws != []
    ensures 1 <= n <= |ws|
    ensures forall k | 0 <= k < n - 1 :: !Ends(ws[k])
    ensures n < |ws| ==> Ends(ws[n - 1])
  {
    if Ends(ws[0]) || |ws| == 1 then 1 else 1 + FirstLength(ws[1..])
  }

  function Parse(ws: seq<string>): (gs: seq<Sentence>)
    ensures gs == [] <==> ws == []
  {
    if ws == [] then [] else var n := FirstLength(ws); [ws[..n]] + Parse(ws[n..])
  }

  /** The sentences of a file's content. */
  function SentencesOf(content: string): (gs: seq<Sentence>) {
    Parse(Tokens(content, EDITOR_SEPS))
  }

  lemma FirstLengthIs(ws: seq<string>, n: nat)
    requires 1 <= n <= |ws|
    requires (forall k | 0 <= k < n - 1 :: !Ends(ws[k])) && (n < |ws| ==> Ends(ws[n - 1]))
    ensures FirstLength(ws) == n
  {
    if n > 1 { FirstLengthIs(ws[1..], n - 1); }
  }

  lemma FirstIsSentence(ws: seq<string>)
    requires ws != []
    ensures var n := FirstLength(ws); IsSentence(ws[..n]) && (n < |ws| ==> Closed(ws[..n]))
  {
  }

  /** Parsing loses no word and yields well-formed sentences. */
  lemma {:induction false} ParseSound(ws: seq<string>)
    ensures Flat(Parse(ws)) == ws
    ensures WellFormed(Parse(ws))
    decreases |ws|
  {
    hide IsSentence, Closed, FirstLength;
    if ws != [] {
      var n := FirstLength(ws);
      var g, rest := ws[..n], Parse(ws[n..]);
      ParseSound(ws[n..]);
      FirstIsSentence(ws);
      WellFormedCons(g, rest);
      FlatCons(g, rest);
      assert g + ws[n..] == ws;
    }
  }

  lemma FlatCons(g: Sentence, gs: seq<Sentence>)
    ensures Flat([g] + gs) == g + Flat(gs)
  {
    assert ([g] + gs)[1..] == gs;
  }

  lemma FlatSnoc(gs: seq<Sentence>, g: Sentence)
    ensures Flat(gs + [g]) == Flat(gs) + g
  {
    FlatConcat(gs, [g]);
    FlatCons(g, []);
  }

  lemma WellFormedCons(g: Sentence, gs: seq<Sentence>)
    requires IsSentence(g) && WellFormed(gs) && (gs != [] ==> Closed(g))
    ensures WellFormed([g] + gs)
  {
    var all := [g] + gs;
    assert forall k | 1 <= k < |all| :: all[k] == gs[k - 1];
  }

  lemma WellFormedConcat(a: seq<Sentence>, b: seq<Sentence>)
    requires WellFormed(a) && WellFormed(b)
    requires a != [] && b != [] ==> Closed(a[|a| - 1])
    ensures WellFormed(a + b)
  {
    var all := a + b;
    forall k | 0 <= k < |all| - 1
      ensures Closed(all[k])
    {
      if k >= |a| { assert all[k] == b[k - |a|]; }
    }
  }

  /** The grouping is unique: a well-formed sentence list is what its words parse to. */
  lemma {:induction false} ParseOfFlat(gs: seq<Sentence>)
    requires WellFormed(gs)
    ensures Parse(Flat(gs)) == gs
  {
    if gs != [] {
      var ws := Flat(gs);
      ParseOfFlat(gs[1..]);
      if |gs| == 1 {
        assert ws == gs[0];
      }
      FirstLengthIs(ws, |gs[0]|);
      assert ws[..|gs[0]|] == gs[0] && ws[|gs[0]|..] == Flat(gs[1..]);
    }
  }

  lemma {:induction false} FlatConcat(a: seq<Sentence>, b: seq<Sentence>)
    ensures Flat(a + b) == Flat(a) + Flat(b)
  {
    if a == [] {
      assert a + b == b;
    } else {
      assert (a + b)[1..] == a[1..] + b;
      FlatConcat(a[1..], b);
    }
  }

  /** Words after a closed sentence start a new one. */
  lemma ParseConcat(a: seq<string>, b: seq<string>)
    requires a == [] || Ends(a[|a| - 1])
    ensures Parse(a + b) == Parse(a) + Parse(b)
  {
    hide Parse, Flat, FirstLength, IsStop;
    ParseSound(a);
    ParseSound(b);
    FlatConcat(Parse(a), Parse(b));
    if a != [] {
      assert IsSentence(Parse(a)[|Parse(a)| - 1]);
      LastOfFlat(Parse(a));
    }
    WellFormedConcat(Parse(a), Parse(b));
    ParseOfFlat(Parse(a) + Parse(b));
  }

  /** The last word of the last sentence is the last word. */
  lemma {:induction false} LastOfFlat(gs: seq<Sentence>)
    requires gs != [] && gs[|gs| - 1] != []
    ensures Flat(gs) != []
    ensures Flat(gs)[|Flat(gs)| - 1] == gs[|gs| - 1][|gs[|gs| - 1]| - 1]
  {
    if |gs| > 1 {
      LastOfFlat(gs[1..]);
    }
  }

  lemma ParseNonemptyClosed(ws: seq<string>)
    requires ws != []
    ensures Parse(ws) != []
    ensures Closed(Parse(ws)[|Parse(ws)| - 1]) <==> Ends(ws[|ws| - 1])
  {
    ParseSound(ws);
    LastOfFlat(Parse(ws));
  }

  /** A sentence parses as one sentence. */
  lemma ParseSentence(g: Sentence)
    requires IsSentence(g)
    ensures Parse(g) == [g]
  {
    FirstLengthIs(g, |g|);
    assert g[..|g|] == g && g[|g|..] == [];
  }

  lemma {:induction false} WordsOfFlat(gs: seq<Sentence>, seps: set<char>)
    requires AllTokens(Flat(gs), seps)
    ensures forall k | 0 <= k < |gs| :: AllTokens(gs[k], seps)
  {
    if gs != [] {
      var ws := Flat(gs);
      assert forall k | 0 <= k < |gs[0]| :: gs[0][k] == ws[k];
      assert forall k | 0 <= k < |Flat(gs[1..])| :: Flat(gs[1..])[k] == ws[|gs[0]| + k];
      WordsOfFlat(gs[1..], seps);
      assert forall k | 1 <= k < |gs| :: gs[k] == gs[1..][k - 1];
    }
  }

  /** What every file's content parses to. */
  lemma SentencesOfShape(content: string)
    ensures Flat(SentencesOf(content)) == Tokens(content, EDITOR_SEPS)
    ensures WellFormed(SentencesOf(content))
    ensures forall k | 0 <= k < |SentencesOf(content)| :: AllTokens(SentencesOf(content)[k], EDITOR_SEPS)
  {
    ParseSound(Tokens(content, EDITOR_SEPS));
    WordsOfFlat(SentencesOf(content), EDITOR_SEPS);
  }

  /** A document is cut behind each word that ends in a full stop, an exclamation mark or a
      question mark, and nowhere else. */
  lemma CutBehindStops(content: string)
    ensures var gs := SentencesOf(content);
      Flat(gs) == Tokens(content, EDITOR_SEPS) &&
      forall k | 0 <= k < |gs| ::
        gs[k] != [] &&
        (forall j | 0 <= j < |gs[k]| - 1 :: gs[k][j] != "" && gs[k][j][|gs[k][j]| - 1] !in {'.', '!', '?'}) &&
        var last := gs[k][|gs[k]| - 1];
        last != "" && (k < |gs| - 1 ==> last[|last| - 1] in {'.', '!', '?'})
  {
    hide Tokens, Parse, Flat;
    SentencesOfShape(content);
    var gs := SentencesOf(content);
    forall k | 0 <= k < |gs|
      ensures AllTokens(gs[k], EDITOR_SEPS) && IsSentence(gs[k])
    {
    }
  }


  /** parse(render(sentences)) == sentences, for every well-formed sentence list. */
  lemma ParseOfRender(gs: seq<Sentence>)
    requires WellFormed(gs)
    requires AllTokens(Flat(gs), EDITOR_SEPS)
    ensures SentencesOf(Join(Flat(gs))) == gs
  {
    TokensOfJoin(Flat(gs), EDITOR_SEPS);
    ParseOfFlat(gs);
  }

  // ---- Sentence boundaries by word index ------------------------------------------------------

  /** `delimiter` is '\0' for the unfinished last sentence. */
  datatype Cut = Cut(start: nat, end: int, delimiter: char)

  function DelimiterOf(g: Sentence): char {
    if Closed(g) then g[|g| - 1][|g[|g| - 1]| - 1] else '\0'
  }

  /** The boundary table of a sentence list that starts at word `base`. */
  ghost function CutsOf(gs: seq<Sentence>, base: nat): (cuts: seq<Cut>)
    ensures |cuts| == |gs|
  {
    if gs == [] then []
    else [Cut(base, base + |gs[0]| - 1, DelimiterOf(gs[0]))] + CutsOf(gs[1..], base + |gs[0]|)
  }

  /** The boundary table a parser with room for `max` sentences leaves. */
  ghost function BoundaryTable(ws: seq<string>, max: nat): seq<Cut> {
    Capped(CutsOf(Parse(ws), 0), max)
  }

  /** What a boundary says of the sentence it stands for. */
  ghost predicate CutFits(cut: Cut, ws: seq<string>, g: Sentence) {
    0 <= cut.start <= cut.end < |ws| && ws[cut.start..cut.end + 1] == g && cut.delimiter == DelimiterOf(g)
  }

  /** Boundary `k` of the sentences after the words `before`: its slice is sentence `k`,
      it starts right after the one before it, and the last one ends at the last word. */
  lemma {:induction false} CutAt(before: seq<string>, gs: seq<Sentence>, k: nat)
    requires k < |gs| && gs[k] != []
    ensures var ws, cuts := before + Flat(gs), CutsOf(gs, |before|);
      CutFits(cuts[k], ws, gs[k]) &&
      (k == 0 ==> cuts[k].start == |before|) &&
      (k + 1 < |gs| ==> cuts[k + 1].start == cuts[k].end + 1) &&
      (k + 1 == |gs| ==> cuts[k].end == |ws| - 1)
    decreases k
  {
    hide Tokens, Parse, WellFormed, AllTokens;
    var ws, tail := before + Flat(gs), gs[1..];
    assert ws == (before + gs[0]) + Flat(tail);
    if k == 0 {
      assert ws[|before|..|before| + |gs[0]|] == gs[0];
    } else {
      CutAt(before + gs[0], tail, k - 1);
    }
  }

  lemma CutsCons(g: Sentence, gs: seq<Sentence>, base: nat)
    ensures CutsOf([g] + gs, base) == [Cut(base, base + |g| - 1, DelimiterOf(g))] + CutsOf(gs, base + |g|)
  {
    assert ([g] + gs)[1..] == gs;
  }

  lemma {:induction false} CutsSnoc(gs: seq<Sentence>, g: Sentence, base: nat)
    ensures CutsOf(gs + [g], base) ==
            CutsOf(gs, base) + [Cut(base + |Flat(gs)|, base + |Flat(gs)| + |g| - 1, DelimiterOf(g))]
  {
    if gs == [] {
      assert gs + [g] == [g];
    } else {
      var tail := gs[1..];
      assert gs + [g] == [gs[0]] + (tail + [g]) && gs == [gs[0]] + tail;
      CutsCons(gs[0], tail + [g], base);
      CutsCons(gs[0], tail, base);
      CutsSnoc(tail, g, base + |gs[0]|);
    }
  }

  /** Where a scan for boundaries stands after the words `seen`: the sentences `done` are
      finished, the words `open` are not, and the table holds the first `max` of `done`. */
  ghost predicate Scanning(seen: seq<string>, done: seq<Sentence>, open: Sentence, cuts: seq<Cut>,
      start: nat, max: nat) {
    seen == Flat(done) + open && WellFormed(done) &&
    (done != [] ==> Closed(done[|done| - 1])) &&
    (forall k | 0 <= k < |open| :: !Ends(open[k])) &&
    cuts == Capped(CutsOf(done, 0), max) &&
    (|cuts| < max ==> start == |Flat(done)|)
  }

  lemma CappedPrefix<T>(all: seq<T>, seen: seq<T>, rest: seq<T>, max: nat)
    requires all == seen + rest && |seen| <= max && (rest == [] || |seen| == max)
    ensures Capped(all, max) == seen
  {
  }

  /** The scan both parsers share, word by word: the table so far and the first word of
      the sentence that is still open. */
  ghost function Scan(seen: seq<string>, max: nat): (r: (seq<Cut>, nat)) {
    if seen == [] then ([], 0)
    else
      var (cuts, start) := Scan(seen[..|seen| - 1], max);
      var w := seen[|seen| - 1];
      if Ends(w) && |cuts| < max
      then (cuts + [Cut(start, |seen| - 1, w[|w| - 1])], |seen|)
      else (cuts, start)
  }

  lemma ScanNothing(words: seq<string>, max: nat)
    ensures Scan(words[..0], max) == ([], 0)
  {
  }

  lemma ScanSnoc(seen: seq<string>, w: string, max: nat)
    ensures Scan(seen + [w], max) ==
            var (cuts, start) := Scan(seen, max);
            if Ends(w) && |cuts| < max
            then (cuts + [Cut(start, |seen|, w[|w| - 1])], |seen| + 1)
            else (cuts, start)
  {
    assert (seen + [w])[..|seen|] == seen;
  }

  /** The scan after `seen`: the sentences `done` are finished, the words `open` are not,
      and the table holds the first `max` of `done`. */
  lemma {:induction false} ScanState(seen: seq<string>, max: nat) returns (done: seq<Sentence>, open: Sentence)
    ensures var (cuts, start) := Scan(seen, max); Scanning(seen, done, open, cuts, start, max)
  {
    if seen == [] {
      done, open := [], [];
    } else {
      var before, w := seen[..|seen| - 1], seen[|seen| - 1];
      var (cuts, start) := Scan(before, max);
      done, open := ScanState(before, max);
      ScanWord(before, done, open, cuts, start, max, w);
      assert before + [w] == seen;
      ScanSnoc(before, w, max);
      if Ends(w) {
        done, open := done + [open + [w]], [];
      } else {
        open := open + [w];
      }
    }
  }

  /** The scan with its unfinished sentence added is the boundary table. */
  lemma ScanIsTable(words: seq<string>, max: nat)
    ensures var (cuts, start) := Scan(words, max);
      BoundaryTable(words, max) ==
      if start < |words| && |cuts| < max then cuts + [Cut(start, |words| - 1, '\0')] else cuts
  {
    var (cuts, start) := Scan(words, max);
    var done, open := ScanState(words, max);
    ScanEnd(words, done, open, cuts, start, max);
  }

  lemma ScanWord(seen: seq<string>, done: seq<Sentence>, open: Sentence, cuts: seq<Cut>, start: nat,
      max: nat, w: string)
    requires Scanning(seen, done, open, cuts, start, max)
    ensures !Ends(w) ==> Scanning(seen + [w], done, open + [w], cuts, start, max)
    ensures Ends(w) && |cuts| == max ==> Scanning(seen + [w], done + [open + [w]], [], cuts, start, max)
    ensures Ends(w) && |cuts| < max ==>
      Scanning(seen + [w], done + [open + [w]], [], cuts + [Cut(start, |seen|, w[|w| - 1])], |seen| + 1, max)
  {
    assert Flat(done) + open + [w] == Flat(done) + (open + [w]);
    if Ends(w) {
      var g := open + [w];
      CutsSnoc(done, g, 0);
      FlatSnoc(done, g);
      WellFormedConcat(done, [g]);
    }
  }

  /** At the end of the words the open ones form the unfinished last sentence. */
  lemma ScanEnd(words: seq<string>, done: seq<Sentence>, open: Sentence, cuts: seq<Cut>, start: nat, max: nat)
    requires Scanning(words, done, open, cuts, start, max)
    ensures |cuts| < max ==> (open != [] <==> start < |words|)
    ensures BoundaryTable(words, max) ==
            if open != [] && |cuts| < max then cuts + [Cut(start, |words| - 1, '\0')] else cuts
  {
    if open == [] {
      assert words == Flat(done);
      ParseOfFlat(done);
    } else {
      CutsSnoc(done, open, 0);
      FlatSnoc(done, open);
      WellFormedConcat(done, [open]);
      ParseOfFlat(done + [open]);
    }
  }

  /** The same for a token stream that was read up to `maxWords` words. */
  lemma ScanOfCapped(all: seq<string>, seen: seq<string>, ahead: seq<string>, maxWords: nat, max: nat, table: seq<Cut>)
    requires all == seen + ahead && |seen| <= maxWords && (ahead == [] || |seen| == maxWords)
    requires var (cuts, start) := Scan(seen, max);
      table == if start < |seen| && |cuts| < max then cuts + [Cut(start, |seen| - 1, '\0')] else cuts
    ensures |Capped(all, maxWords)| == |seen|
    ensures table == BoundaryTable(Capped(all, maxWords), max)
  {
    CappedPrefix(all, seen, ahead, maxWords);
    ScanIsTable(seen, max);
  }

  /** Second pass of the merge and of the insertion: boundaries of tokenized words. */
  method FindBoundaries(words: seq<string>, max: nat) returns (cuts: seq<Cut>)
    ensures cuts == BoundaryTable(words, max)
  {
    hide IsStop, Scan, BoundaryTable;
    cuts := [];
    var start := 0;
    var i := 0;
    ScanNothing(words, max);
    while i < |words|
      invariant i <= |words|
      invariant (cuts, start) == Scan(words[..i], max)
    {
      ScanSnoc(words[..i], words[i], max);
      assert words[..i + 1] == words[..i] + [words[i]];
      if Ends(words[i]) && |cuts| < max {
        cuts := cuts + [Cut(start, i, words[i][|words[i]| - 1])];
        start := i + 1;
      }
      i := i + 1;
    }
    assert words[..i] == words;
    ScanIsTable(words, max);
    if start < |words| && |cuts| < max {
      cuts := cuts + [Cut(start, |words| - 1, '\0')];
    }
  }

  /** The fused parser: tokens and boundaries in one `strtok` loop. */
  method GetSentenceInfo(content: string, maxWords: nat, max: nat) returns (cuts: seq<Cut>, count: nat)
    ensures var words := Capped(Tokens(content, EDITOR_SEPS), maxWords);
      count == |words| && cuts == BoundaryTable(words, max)
  {
    cuts, count := [], 0;
    var start := 0;
    ghost var all, seen := Tokens(content, EDITOR_SEPS), [];
    ghost var ahead := all;
    var found, token, rest := NextToken(content, EDITOR_SEPS);
    while found && count < maxWords
      invariant count == |seen| <= maxWords
      invariant all == seen + ahead && (found <==> ahead != [])
      invariant found ==> ahead == [token] + Tokens(rest, EDITOR_SEPS)
      invariant (cuts, start) == Scan(seen, max)
      decreases maxWords - count
    {
      ScanSnoc(seen, token, max);
      if Ends(token) && |cuts| < max {
        cuts := cuts + [Cut(start, count, token[|token| - 1])];
        start := count + 1;
      }
      seen, ahead := seen + [token], Tokens(rest, EDITOR_SEPS);
      count := count + 1;
      found, token, rest := NextToken(rest, EDITOR_SEPS);
    }
    if start < count && |cuts| < max {
      cuts := cuts + [Cut(start, count - 1, '\0')];
    }
    ScanOfCapped(all, seen, ahead, maxWords, max, cuts);
  }
}
