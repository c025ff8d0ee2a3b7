/** Turning the pieces of a search into phrases, and the phrases into a weaker SQL query. */
module Augmenter {
  import opened LikePatterns

  /** The lower one eighth block that marks the beginning of a word. */
  const MARKER: char := '\U{2581}'

  type Phrase = seq<string>

  function Join(parts: seq<string>): string {
    if parts == [] then "" else parts[0] + Join(parts[1..])
  }

  lemma {:induction false} JoinJoin(a: seq<string>, b: seq<string>)
    ensures Join(a + b) == Join(a) + Join(b)
  {
    if a == [] {
      assert a + b == b;
    } else {
      assert (a + b)[1..] == a[1..] + b;
      JoinJoin(a[1..], b);
    }
  }

  lemma JoinOne(part: string)
    ensures Join([part]) == part
  {
    assert Join([part]) == part + Join([part][1..]);
  }

  // ---------------------------------------------------------------- phrases

  predicate Marked(piece: string) {
    piece != "" && piece[0] == MARKER
  }

  function Flushed(current: Phrase): seq<Phrase> {
    if current == [] then [] else [current]
  }

  /** A piece without its marker; a piece that is only a marker leaves nothing. */
  function Kept(piece: string): seq<string> {
    if !Marked(piece) then [piece] else if piece == [MARKER] then [] else [piece[1..]]
  }

  /** The phrases of the remaining pieces, given the phrase begun so far. */
  function PhrasesFrom(pieces: seq<string>, current: Phrase): seq<Phrase> {
    if pieces == [] then Flushed(current)
    else if Marked(pieces[0]) then
      Flushed(current) + PhrasesFrom(pieces[1..], Kept(pieces[0]))
    else PhrasesFrom(pieces[1..], current + Kept(pieces[0]))
  }

  function Phrases(pieces: seq<string>): seq<Phrase> {
    PhrasesFrom(pieces, [])
  }

  lemma PhrasesStep(pieces: seq<string>, k: nat, phrases: seq<Phrase>, current: Phrase)
    requires k < |pieces|
    ensures var kept := Kept(pieces[k]);
            phrases + PhrasesFrom(pieces[k..], current) ==
            if Marked(pieces[k]) then phrases + Flushed(current) + PhrasesFrom(pieces[k + 1..], kept)
            else phrases + PhrasesFrom(pieces[k + 1..], current + kept)
  {
    assert pieces[k..][0] == pieces[k] && pieces[k..][1..] == pieces[k + 1..];
  }

  method ToPhrases(pieces: seq<string>) returns (phrases: seq<Phrase>)
    ensures phrases == Phrases(pieces)
  {
    phrases := [];
    var currentPhrase: Phrase := [];
    var k := 0;
    assert pieces[0..] == pieces;
    while k < |pieces|
      invariant 0 <= k <= |pieces|
      invariant phrases + PhrasesFrom(pieces[k..], currentPhrase) == Phrases(pieces)
    {
      var piece := pieces[k];
      PhrasesStep(pieces, k, phrases, currentPhrase);
      if piece != "" && piece[0] == MARKER {
        if |currentPhrase| > 0 {
          phrases := phrases + [currentPhrase];
          currentPhrase := [];
        }
        if piece != [MARKER] {
          currentPhrase := currentPhrase + [piece[1..]];
          assert currentPhrase == [piece[1..]];
        }
      } else {
        currentPhrase := currentPhrase + [piece];
      }
      k := k + 1;
    }
    if |currentPhrase| > 0 {
      phrases := phrases + [currentPhrase];
    }
  }

  /** The pieces without their markers. */
  function Stripped(pieces: seq<string>): seq<string> {
    if pieces == [] then [] else Kept(pieces[0]) + Stripped(pieces[1..])
  }

  function Flattened(phrases: seq<Phrase>): seq<string> {
    if phrases == [] then [] else phrases[0] + Flattened(phrases[1..])
  }

  lemma FlattenedFirst(current: Phrase, phrases: seq<Phrase>)
    ensures Flattened(Flushed(current) + phrases) == current + Flattened(phrases)
  {
    assert (Flushed(current) + phrases)[|Flushed(current)|..] == phrases;
  }

  lemma {:induction false} PhrasesFromFlatten(pieces: seq<string>, current: Phrase)
    ensures Flattened(PhrasesFrom(pieces, current)) == current + Stripped(pieces)
    decreases |pieces|
  {
    if pieces == [] {
      FlattenedFirst(current, []);
      assert Flushed(current) + [] == Flushed(current);
    } else {
      var (kept, rest) := (Kept(pieces[0]), pieces[1..]);
      assert (current + kept) + Stripped(rest) == current + (kept + Stripped(rest));
      if Marked(pieces[0]) {
        PhrasesFromFlatten(rest, kept);
        FlattenedFirst(current, PhrasesFrom(rest, kept));
      } else {
        PhrasesFromFlatten(rest, current + kept);
      }
    }
  }

  lemma {:induction false} NoPhraseIsEmpty(pieces: seq<string>, current: Phrase)
    ensures forall i :: 0 <= i < |PhrasesFrom(pieces, current)| ==> PhrasesFrom(pieces, current)[i] != []
    decreases |pieces|
  {
    if pieces != [] {
      NoPhraseIsEmpty(pieces[1..], if Marked(pieces[0]) then Kept(pieces[0]) else current + Kept(pieces[0]));
    }
  }

  /** No phrase is empty, and together the phrases are the marker-stripped pieces. */
  lemma PhrasesFlatten(pieces: seq<string>)
    ensures Flattened(Phrases(pieces)) == Stripped(pieces)
    ensures forall i :: 0 <= i < |Phrases(pieces)| ==> Phrases(pieces)[i] != []
  {
    PhrasesFromFlatten(pieces, []);
    NoPhraseIsEmpty(pieces, []);
  }

  function FlushedWord(current: string): seq<string> {
    if current == "" then [] else [current]
  }

  /** The words of a marked text: the longest runs without a marker. */
  function Words(text: string, current: string): seq<string> {
    if text == "" then FlushedWord(current)
    else if text[0] == MARKER then FlushedWord(current) + Words(text[1..], "")
    else Words(text[1..], current + [text[0]])
  }

  lemma {:induction false} WordsRun(run: string, text: string, current: string)
    requires MARKER !in run
    ensures Words(run + text, current) == Words(text, current + run)
    decreases |run|
  {
    if run == "" {
      assert run + text == text && current + run == current;
    } else {
      assert (run + text)[1..] == run[1..] + text;
      assert current + [run[0]] + run[1..] == current + run;
      WordsRun(run[1..], text, current + [run[0]]);
    }
  }

  lemma WordsMarked(piece: string, text: string, current: string)
    requires Marked(piece) && MARKER !in piece[1..]
    ensures Words(piece + text, current) == FlushedWord(current) + Words(text, piece[1..])
  {
    assert (piece + text)[1..] == piece[1..] + text;
    WordsRun(piece[1..], text, "");
    assert "" + piece[1..] == piece[1..];
  }

  function Joined(phrases: seq<Phrase>): (ws: seq<string>)
    ensures |ws| == |phrases|
    ensures forall i :: 0 <= i < |phrases| ==> ws[i] == Join(phrases[i])
  {
    seq(|phrases|, i requires 0 <= i < |phrases| => Join(phrases[i]))
  }

  /** Pieces as a tokenizer makes them: not empty, and with a marker only in front. */
  predicate Clean(pieces: seq<string>) {
    forall i :: 0 <= i < |pieces| ==> pieces[i] != "" && MARKER !in pieces[i][1..]
  }

  lemma JoinedFlushed(current: Phrase, phrases: seq<Phrase>)
    requires Join(current) == "" <==> current == []
    ensures Joined(Flushed(current) + phrases) == FlushedWord(Join(current)) + Joined(phrases)
  {
  }

  lemma {:induction false} PhrasesFromAreWords(pieces: seq<string>, current: Phrase)
    requires Clean(pieces) && (Join(current) == "" <==> current == [])
    ensures Joined(PhrasesFrom(pieces, current)) == Words(Join(pieces), Join(current))
    decreases |pieces|
  {
    if pieces == [] {
      JoinedFlushed(current, []);
      assert Flushed(current) + [] == Flushed(current) && FlushedWord(Join(current)) + [] == FlushedWord(Join(current));
    } else {
      var (piece, rest) := (pieces[0], pieces[1..]);
      CleanTail(pieces);
      if Marked(piece) {
        var next := if piece == [MARKER] then [] else [piece[1..]];
        JoinOne(piece[1..]);
        PhrasesFromAreWords(rest, next);
        WordsMarked(piece, Join(rest), Join(current));
        JoinedFlushed(current, PhrasesFrom(rest, next));
      } else {
        WordsRun(piece, Join(rest), Join(current));
        JoinJoin(current, [piece]);
        JoinOne(piece);
        PhrasesFromAreWords(rest, current + [piece]);
      }
    }
  }

  lemma CleanTail(pieces: seq<string>)
    requires Clean(pieces) && pieces != []
    ensures Clean(pieces[1..])
    ensures !Marked(pieces[0]) ==> MARKER !in pieces[0]
  {
    assert pieces[0] == [pieces[0][0]] + pieces[0][1..];
  }

  /** A phrase is a word: its pieces joined are what stands between two markers of the tokenized text. */
  lemma PhrasesAreWords(pieces: seq<string>)
    requires Clean(pieces)
    ensures Joined(Phrases(pieces)) == Words(Join(pieces), "")
  {
    PhrasesFromAreWords(pieces, []);
  }

  // ---------------------------------------------------------------- patterns

  /** The pieces from `j` on without piece `i`, with a wildcard where an inner or last piece was left out. */
  function Permutation(phrase: Phrase, i: nat, j: nat): string
    decreases |phrase| - j
  {
    if j >= |phrase| then ""
    else (if j == i then "" else phrase[j] + (if j + 1 == i then "%" else "")) + Permutation(phrase, i, j + 1)
  }

  predicate EndsWithPercent(s: string) {
    s != "" && s[|s| - 1] == '%'
  }

  function Pattern(permutation: string): string {
    "%" + permutation + (if EndsWithPercent(permutation) then "" else "%")
  }

  /** One pattern for every piece left out, unless nothing remains. */
  function PatternsFrom(phrase: Phrase, i: nat): seq<string>
    decreases |phrase| - i
  {
    if i >= |phrase| then []
    else
      var permutation := Permutation(phrase, i, 0);
      (if permutation == "" then [] else [Pattern(permutation)]) + PatternsFrom(phrase, i + 1)
  }

  function Patterns(phrase: Phrase): seq<string> {
    if |phrase| == 1 then ["%" + phrase[0] + "%"] else PatternsFrom(phrase, 0)
  }

  lemma {:induction false} PermutationBefore(phrase: Phrase, i: nat, j: nat)
    requires j < i < |phrase|
    ensures Permutation(phrase, i, j) == Join(phrase[j..i]) + "%" + Join(phrase[i + 1..])
    decreases i - j
  {
    assert phrase[j..i] == [phrase[j]] + phrase[j + 1..i];
    if j + 1 < i {
      PermutationBefore(phrase, i, j + 1);
      assert phrase[j] + (Join(phrase[j + 1..i]) + "%" + Join(phrase[i + 1..])) ==
             phrase[j] + Join(phrase[j + 1..i]) + "%" + Join(phrase[i + 1..]);
    } else {
      assert phrase[j + 1..i] == [];
      JoinOne(phrase[j]);
      PermutationAfter(phrase, i, i + 1);
      assert Permutation(phrase, i, i) == "" + Permutation(phrase, i, i + 1);
    }
  }

  lemma {:induction false} PermutationAfter(phrase: Phrase, i: nat, j: nat)
    requires i < j <= |phrase|
    ensures Permutation(phrase, i, j) == Join(phrase[j..])
    decreases |phrase| - j
  {
    if j < |phrase| {
      assert phrase[j..] == [phrase[j]] + phrase[j + 1..];
      PermutationAfter(phrase, i, j + 1);
    }
  }

  /** The permutation is the phrase with piece `i` replaced by a wildcard, or cut off when it is the first. */
  lemma PermutationShape(phrase: Phrase, i: nat)
    requires i < |phrase|
    ensures Permutation(phrase, i, 0) ==
            (if i == 0 then "" else Join(phrase[..i]) + "%") + Join(phrase[i + 1..])
  {
    assert phrase[0..i] == phrase[..i];
    if i == 0 {
      PermutationAfter(phrase, 0, 1);
      assert Permutation(phrase, 0, 0) == "" + Permutation(phrase, 0, 1);
    } else {
      PermutationBefore(phrase, i, 0);
    }
  }

  /** If a pattern with a `%` on either side matches, so does the one that is really generated. */
  lemma PatternIsEnough(permutation: string, title: string)
    requires Like("%" + permutation + "%", title)
    ensures Like(Pattern(permutation), title)
  {
    if EndsWithPercent(permutation) {
      var init := permutation[..|permutation| - 1];
      assert permutation == init + "%";
      assert "%" + permutation + "%" == ("%" + init) + "%%";
      TrailingPercent("%" + init, title);
      assert ("%" + init) + "%" == Pattern(permutation);
    }
  }

  /** A title that contains a word contains it without any one of its pieces: every generated pattern matches. */
  lemma PatternHolds(phrase: Phrase, i: nat, title: string)
    requires i < |phrase| && Contains(title, Join(phrase))
    ensures Like(Pattern(Permutation(phrase, i, 0)), title)
  {
    var (a, x, b) := (Join(phrase[..i]), phrase[i], Join(phrase[i + 1..]));
    assert phrase == phrase[..i] + ([phrase[i]] + phrase[i + 1..]);
    JoinJoin(phrase[..i], [phrase[i]] + phrase[i + 1..]);
    JoinJoin([phrase[i]], phrase[i + 1..]);
    JoinOne(x);
    assert Join(phrase) == a + (x + b);
    var at: nat :| at <= |title| && StandsAt(title, Join(phrase), at);
    PiecesMatch(a, x, b, title, at, i == 0);
    PermutationShape(phrase, i);
    PatternIsEnough(Permutation(phrase, i, 0), title);
  }

  lemma StandsSplit(title: string, u: string, v: string, at: nat)
    requires StandsAt(title, u + v, at)
    ensures StandsAt(title, u, at) && StandsAt(title, v, at + |u|)
  {
    var copy := title[at..at + |u + v|];
    forall k | 0 <= k < |u|
      ensures Fold(u[k]) == Fold(title[at..at + |u|][k])
    {
      assert (u + v)[k] == u[k] && copy[k] == title[at..at + |u|][k];
    }
    forall k | 0 <= k < |v|
      ensures Fold(v[k]) == Fold(title[at + |u|..at + |u| + |v|][k])
    {
      assert (u + v)[|u| + k] == v[k] && copy[|u| + k] == title[at + |u|..at + |u| + |v|][k];
    }
  }

  /** A word that stands in the title is matched there, and the pattern goes on behind it. */
  lemma MatchHere(word: string, pattern: string, title: string, at: nat)
    requires StandsAt(title, word, at) && Like(pattern, title[at + |word|..])
    ensures Like(word + pattern, title[at..])
  {
    LiteralMatches(word, title[at..at + |word|], pattern, title[at + |word|..]);
    assert title[at..] == title[at..at + |word|] + title[at + |word|..];
  }

  lemma SkipTo(pattern: string, title: string, lo: nat, hi: nat)
    requires lo <= hi <= |title| && Like(pattern, title[hi..])
    ensures Like("%" + pattern, title[lo..])
  {
    PercentSkips(pattern, title[lo..hi], title[hi..]);
    assert title[lo..] == title[lo..hi] + title[hi..];
  }

  lemma PiecesMatch(a: string, x: string, b: string, title: string, at: nat, first: bool)
    requires StandsAt(title, a + (x + b), at)
    requires first ==> a == ""
    ensures Like("%" + ((if first then "" else a + "%") + b) + "%", title)
  {
    var (p, q) := (at + |a|, at + |a| + |x|);
    StandsSplit(title, a, x + b, at);
    StandsSplit(title, x, b, p);
    PercentMatchesAll(title[q + |b|..]);
    MatchHere(b, "%", title, q);
    assert title[0..] == title;
    if first {
      SkipTo(b + "%", title, 0, q);
      assert "%" + (b + "%") == "%" + ("" + b) + "%";
    } else {
      SkipTo(b + "%", title, p, q);
      MatchHere(a, "%" + (b + "%"), title, at);
      SkipTo(a + ("%" + (b + "%")), title, 0, at);
      Associated("%", a, b);
    }
  }

  lemma Associated(p: string, a: string, b: string)
    ensures p + (a + (p + (b + p))) == p + ((a + p) + b) + p
  {
  }

  /** Every phrase has a pattern, and a title that contains the word matches all of them. */
  lemma PatternsHold(phrase: Phrase, title: string)
    requires phrase != []
    ensures Patterns(phrase) != []
    ensures Contains(title, Join(phrase)) ==>
      forall k :: 0 <= k < |Patterns(phrase)| ==> Like(Patterns(phrase)[k], title)
  {
    if |phrase| == 1 {
      if Contains(title, Join(phrase)) {
        var w := phrase[0];
        JoinOne(w);
        assert phrase == [w];
        var at: nat :| at <= |title| && StandsAt(title, w, at);
        assert w == "" + ("" + w);
        PiecesMatch("", "", w, title, at, true);
        assert "" + w == w;
      }
    } else {
      PermutationShape(phrase, 1);
      assert Permutation(phrase, 1, 0) != "";
      PatternsFromHold(phrase, 0, title);
    }
  }

  lemma {:induction false} PatternsFromHold(phrase: Phrase, i: nat, title: string)
    requires i <= |phrase|
    ensures i < |phrase| && (exists k :: i <= k < |phrase| && Permutation(phrase, k, 0) != "") ==>
      PatternsFrom(phrase, i) != []
    ensures Contains(title, Join(phrase)) ==>
      forall k :: 0 <= k < |PatternsFrom(phrase, i)| ==> Like(PatternsFrom(phrase, i)[k], title)
    decreases |phrase| - i
  {
    if i < |phrase| {
      PatternsFromHold(phrase, i + 1, title);
      if Contains(title, Join(phrase)) {
        PatternHolds(phrase, i, title);
      }
    }
  }

  // ---------------------------------------------------------------- what the patterns ask for

  /** Pieces with text, and without wildcard characters. */
  predicate PlainPieces(pieces: seq<string>) {
    forall i :: 0 <= i < |pieces| ==> pieces[i] != "" && Plain(pieces[i])
  }

  lemma {:induction false} JoinIsPlain(pieces: seq<string>)
    requires PlainPieces(pieces)
    ensures Plain(Join(pieces)) && (Join(pieces) == "" <==> pieces == [])
    decreases |pieces|
  {
    if pieces != [] {
      JoinIsPlain(pieces[1..]);
    }
  }

  /** The pieces before piece `i` stand in the title, and those after it stand behind them. */
  predicate MissesPiece(phrase: Phrase, i: nat, title: string)
    requires i < |phrase|
  {
    StandInOrder(title, Join(phrase[..i]), Join(phrase[i + 1..]))
  }

  lemma PatternMeaning(phrase: Phrase, i: nat, title: string)
    requires PlainPieces(phrase) && i < |phrase| && |phrase| > 1
    ensures Permutation(phrase, i, 0) != ""
    ensures Like(Pattern(Permutation(phrase, i, 0)), title) <==> MissesPiece(phrase, i, title)
  {
    var (a, b) := (Join(phrase[..i]), Join(phrase[i + 1..]));
    JoinIsPlain(phrase[..i]);
    JoinIsPlain(phrase[i + 1..]);
    PermutationShape(phrase, i);
    if i == 0 {
      FirstLeftOut(b, title);
    } else if i == |phrase| - 1 {
      LastLeftOut(a, title);
    } else {
      InnerLeftOut(a, b, title);
    }
  }

  lemma FirstLeftOut(b: string, title: string)
    requires Plain(b) && b != ""
    ensures Like(Pattern("" + b), title) <==> StandInOrder(title, "", b)
  {
    assert "" + b == b;
    PlainContainment(b, title);
    NothingInFront(title, b);
  }

  lemma LastLeftOut(a: string, title: string)
    requires Plain(a)
    ensures Like(Pattern(a + "%" + ""), title) <==> StandInOrder(title, a, "")
  {
    assert a + "%" + "" == a + "%" && "%" + (a + "%") + "" == "%" + a + "%";
    PlainContainment(a, title);
    NothingBehind(title, a);
  }

  lemma InnerLeftOut(a: string, b: string, title: string)
    requires Plain(a) && Plain(b) && b != ""
    ensures Like(Pattern(a + "%" + b), title) <==> StandInOrder(title, a, b)
  {
    assert (a + "%" + b)[|a + "%" + b| - 1] == b[|b| - 1];
    assert "%" + (a + "%" + b) + "%" == "%" + (a + ("%" + b + "%"));
    GapMeaning(a, b, title);
  }

  predicate AnyMatches(patterns: seq<string>, title: string) {
    exists k :: 0 <= k < |patterns| && Like(patterns[k], title)
  }

  predicate MissesOneFrom(phrase: Phrase, i: nat, title: string) {
    exists k :: i <= k < |phrase| && MissesPiece(phrase, k, title)
  }

  lemma AnyOfMore(pattern: string, rest: seq<string>, title: string)
    ensures AnyMatches([pattern] + rest, title) <==> Like(pattern, title) || AnyMatches(rest, title)
  {
    var all := [pattern] + rest;
    assert all[0] == pattern;
    if AnyMatches(rest, title) {
      var k :| 0 <= k < |rest| && Like(rest[k], title);
      assert all[k + 1] == rest[k];
    }
  }

  lemma {:induction false} PatternsFromMeaning(phrase: Phrase, i: nat, title: string)
    requires PlainPieces(phrase) && |phrase| > 1
    ensures AnyMatches(PatternsFrom(phrase, i), title) <==> MissesOneFrom(phrase, i, title)
    decreases |phrase| - i
  {
    if i < |phrase| {
      PatternMeaning(phrase, i, title);
      PatternsFromMeaning(phrase, i + 1, title);
      AnyOfMore(Pattern(Permutation(phrase, i, 0)), PatternsFrom(phrase, i + 1), title);
      assert MissesOneFrom(phrase, i, title) <==> MissesPiece(phrase, i, title) || MissesOneFrom(phrase, i + 1, title);
    }
  }

  /** What is asked of a title for one word: the word itself if it is one piece, else the word but for one piece. */
  predicate Asked(phrase: Phrase, title: string) {
    if |phrase| == 1 then Contains(title, phrase[0]) else MissesOneFrom(phrase, 0, title)
  }

  /** For plain words the patterns ask exactly this: no more, and no less. */
  lemma PatternsMeaning(phrase: Phrase, title: string)
    requires PlainPieces(phrase) && phrase != []
    ensures AnyMatches(Patterns(phrase), title) <==> Asked(phrase, title)
  {
    if |phrase| == 1 {
      PlainContainment(phrase[0], title);
      assert Patterns(phrase)[0] == "%" + phrase[0] + "%";
    } else {
      PatternsFromMeaning(phrase, 0, title);
    }
  }

  predicate AllPlain(phrases: seq<Phrase>) {
    forall i :: 0 <= i < |phrases| ==> phrases[i] != [] && PlainPieces(phrases[i])
  }

  lemma {:induction false} PhrasesFromArePlain(pieces: seq<string>, current: Phrase)
    requires PlainPieces(pieces) && PlainPieces(current)
    ensures AllPlain(PhrasesFrom(pieces, current))
    decreases |pieces|
  {
    if pieces != [] {
      PhrasesFromArePlain(pieces[1..], if Marked(pieces[0]) then Kept(pieces[0]) else current + Kept(pieces[0]));
    }
  }
}
