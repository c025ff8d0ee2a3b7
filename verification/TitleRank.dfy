/** How well a title answers a query: a rotating, shrinking deque, and the circular scan it stands for. */
module TitleRank {
  import opened Outcomes

  type Word = string

  // ---------------------------------------------------------------- the deque

  /** The position of the first occurrence, or the length. */
  function IndexOf(words: seq<Word>, word: Word): (i: nat)
    ensures i <= |words|
    ensures i < |words| ==> words[i] == word
    ensures forall k :: 0 <= k < i ==> words[k] != word
    ensures i == |words| <==> word !in words
  {
    if words == [] then 0 else if words[0] == word then 0 else 1 + IndexOf(words[1..], word)
  }

  /** What is left of the deque after a query word: leading words moved to the end, the found one removed. */
  function Rotated(words: seq<Word>, word: Word): seq<Word> {
    var i := IndexOf(words, word);
    if i == |words| then words else words[i + 1..] + words[..i]
  }

  class TitleDeque {
    var words: seq<Word>

    constructor (title: seq<Word>)
      ensures words == title
    {
      words := title;
    }

    method Index(word: Word) returns (r: Option<nat>)
      ensures r == if IndexOf(words, word) < |words| then Some(IndexOf(words, word)) else None
    {
      var i := 0;
      while i < |words|
        invariant 0 <= i <= |words|
        invariant forall k :: 0 <= k < i ==> words[k] != word
      {
        if words[i] == word {
          return Some(i);
        }
        i := i + 1;
      }
      r := None;
    }

    /** rotate(-n) for n within the length. */
    method RotateLeft(n: nat)
      requires n <= |words|
      modifies this
      ensures words == old(words[n..] + words[..n])
    {
      words := words[n..] + words[..n];
    }

    method PopLeft()
      requires words != []
      modifies this
      ensures words == old(words[1..])
    {
      words := words[1..];
    }

    /** find_word_and_rotate_title */
    method FindWordAndRotate(word: Word) returns (found: bool, skipped: nat)
      modifies this
      ensures found <==> word in old(words)
      ensures skipped == if found then IndexOf(old(words), word) else 0
      ensures words == Rotated(old(words), word)
    {
      var index := Index(word);
      if index.None? {
        return false, 0;
      }
      skipped := index.value;
      RotateLeft(skipped);
      PopLeft();
      found := true;
    }
  }

  // ---------------------------------------------------------------- the circular scan

  /**
   * The same search on the fixed title: which words are crossed out, and where the next scan starts.
   * Nothing is moved.
   */
  datatype Scan = Scan(title: seq<Word>, crossed: set<nat>, cursor: nat)

  predicate Open(s: Scan, i: nat) {
    i < |s.title| && i !in s.crossed
  }

  /** The words not crossed out at positions `lo` to `hi`. */
  function Live(title: seq<Word>, crossed: set<nat>, lo: nat, hi: nat): seq<Word>
    requires lo <= hi <= |title|
    decreases hi - lo
  {
    if lo == hi then []
    else (if lo in crossed then [] else [title[lo]]) + Live(title, crossed, lo + 1, hi)
  }

  /** The words not crossed out, read from the cursor to the end and then from the beginning to the cursor. */
  function Circle(s: Scan): seq<Word>
    requires s.cursor <= |s.title|
  {
    Live(s.title, s.crossed, s.cursor, |s.title|) + Live(s.title, s.crossed, 0, s.cursor)
  }

  /** The first open position from `lo` on that holds the word, or `hi`. */
  function FirstOpen(title: seq<Word>, crossed: set<nat>, word: Word, lo: nat, hi: nat): (p: nat)
    requires lo <= hi <= |title|
    ensures lo <= p <= hi
    ensures p < hi ==> p !in crossed && title[p] == word
    ensures forall k :: lo <= k < p ==> k in crossed || title[k] != word
    decreases hi - lo
  {
    if lo == hi || (lo !in crossed && title[lo] == word) then lo
    else FirstOpen(title, crossed, word, lo + 1, hi)
  }

  /** Whether the word was found, how many open words were passed, and the scan that goes on behind it. */
  function ScanFor(s: Scan, word: Word): (bool, nat, Scan)
    requires s.cursor <= |s.title|
  {
    var n := |s.title|;
    var p := FirstOpen(s.title, s.crossed, word, s.cursor, n);
    if p < n then
      (true, |Live(s.title, s.crossed, s.cursor, p)|, s.(crossed := s.crossed + {p}, cursor := p + 1))
    else
      var q := FirstOpen(s.title, s.crossed, word, 0, s.cursor);
      if q < s.cursor then
        (true, |Live(s.title, s.crossed, s.cursor, n)| + |Live(s.title, s.crossed, 0, q)|,
         s.(crossed := s.crossed + {q}, cursor := q + 1))
      else (false, 0, s)
  }

  lemma {:induction false} LiveSplit(title: seq<Word>, crossed: set<nat>, lo: nat, mid: nat, hi: nat)
    requires lo <= mid <= hi <= |title|
    ensures Live(title, crossed, lo, hi) == Live(title, crossed, lo, mid) + Live(title, crossed, mid, hi)
    decreases mid - lo
  {
    if lo < mid {
      LiveSplit(title, crossed, lo + 1, mid, hi);
    }
  }

  lemma {:induction false} LiveUncrossed(title: seq<Word>, crossed: set<nat>, p: nat, lo: nat, hi: nat)
    requires lo <= hi <= |title|
    requires p < lo || hi <= p
    ensures Live(title, crossed + {p}, lo, hi) == Live(title, crossed, lo, hi)
    decreases hi - lo
  {
    if lo < hi {
      LiveUncrossed(title, crossed, p, lo + 1, hi);
    }
  }

  lemma {:induction false} LiveAvoids(title: seq<Word>, crossed: set<nat>, word: Word, lo: nat, hi: nat)
    requires lo <= hi <= |title|
    requires forall k :: lo <= k < hi ==> k in crossed || title[k] != word
    ensures word !in Live(title, crossed, lo, hi)
    decreases hi - lo
  {
    if lo < hi {
      LiveAvoids(title, crossed, word, lo + 1, hi);
    }
  }

  lemma {:induction false} LiveAll(title: seq<Word>, lo: nat)
    requires lo <= |title|
    ensures Live(title, {}, lo, |title|) == title[lo..]
    decreases |title| - lo
  {
    if lo < |title| {
      LiveAll(title, lo + 1);
    }
  }

  /** Around an open position: the words before it, its word, and the words after it, also once it is crossed out. */
  lemma LiveAround(title: seq<Word>, crossed: set<nat>, p: nat, lo: nat, hi: nat)
    requires lo <= p < hi <= |title| && p !in crossed
    ensures Live(title, crossed, lo, hi) ==
            Live(title, crossed, lo, p) + [title[p]] + Live(title, crossed, p + 1, hi)
    ensures Live(title, crossed + {p}, lo, p) == Live(title, crossed, lo, p)
    ensures Live(title, crossed + {p}, lo, p + 1) == Live(title, crossed, lo, p)
    ensures Live(title, crossed + {p}, p + 1, hi) == Live(title, crossed, p + 1, hi)
  {
    LiveSplit(title, crossed, lo, p, hi);
    LiveUncrossed(title, crossed, p, lo, p);
    LiveUncrossed(title, crossed, p, p + 1, hi);
    LiveSplit(title, crossed + {p}, lo, p, p + 1);
    assert Live(title, crossed + {p}, p, p + 1) == [] + Live(title, crossed + {p}, p + 1, p + 1);
  }

  /** Taking out the first occurrence of a word and going on behind it is what the rotated deque does. */
  lemma Removal(circle: seq<Word>, rest: seq<Word>, a: seq<Word>, word: Word, b: seq<Word>)
    requires circle == a + [word] + b && word !in a
    requires rest == b + a
    ensures word in circle && IndexOf(circle, word) == |a|
    ensures rest == Rotated(circle, word)
  {
    var i := IndexOf(circle, word);
    assert circle[|a|] == word;
    assert forall k :: 0 <= k < |a| ==> circle[k] == a[k];
    assert circle[i + 1..] == b && circle[..i] == a;
  }

  lemma Regroup(a: seq<Word>, b: seq<Word>, c: seq<Word>)
    ensures a + b + c == a + (b + c)
  {
  }

  /** The circle before and after position `p`, ahead of the cursor, is crossed out. */
  lemma CirclesAhead(t: seq<Word>, x: set<nat>, c: nat, p: nat)
    requires c <= p < |t| && p !in x
    ensures var rest := Live(t, x, p + 1, |t|) + Live(t, x, 0, c);
            && Circle(Scan(t, x, c)) == Live(t, x, c, p) + [t[p]] + rest
            && Circle(Scan(t, x + {p}, p + 1)) == rest + Live(t, x, c, p)
  {
    var (before, after, front) := (Live(t, x, c, p), Live(t, x, p + 1, |t|), Live(t, x, 0, c));
    LiveAround(t, x, p, c, |t|);
    LiveAround(t, x, p, 0, |t|);
    LiveSplit(t, x, 0, c, p);
    Regroup(before + [t[p]], after, front);
    Regroup(after, front, before);
  }

  /** The same for a position behind the cursor. */
  lemma CirclesBehind(t: seq<Word>, x: set<nat>, c: nat, q: nat)
    requires q < c <= |t| && q !in x
    ensures var passed := Live(t, x, c, |t|) + Live(t, x, 0, q);
            && Circle(Scan(t, x, c)) == passed + [t[q]] + Live(t, x, q + 1, c)
            && Circle(Scan(t, x + {q}, q + 1)) == Live(t, x, q + 1, c) + passed
  {
    var (tail, before, after) := (Live(t, x, c, |t|), Live(t, x, 0, q), Live(t, x, q + 1, c));
    LiveAround(t, x, q, 0, c);
    Regroup(tail, before + [t[q]], after);
    Regroup(tail, before, [t[q]]);
    LiveAround(t, x, q, 0, |t|);
    LiveSplit(t, x, q + 1, c, |t|);
    Regroup(after, tail, before);
  }

  /** The scan's answer for one word is the deque's, and the two stay in step. */
  predicate InStep(s: Scan, word: Word, answer: (bool, nat, Scan))
    requires s.cursor <= |s.title|
  {
    && answer.2.title == s.title && answer.2.cursor <= |s.title|
    && Circle(answer.2) == Rotated(Circle(s), word)
    && (answer.0 <==> word in Circle(s))
    && answer.1 == if answer.0 then IndexOf(Circle(s), word) else 0
  }

  lemma InStepAfterRemoval(s: Scan, word: Word, a: seq<Word>, b: seq<Word>, s': Scan)
    requires s.cursor <= |s.title| && s'.title == s.title && s'.cursor <= |s.title|
    requires Circle(s) == a + [word] + b && word !in a
    requires Circle(s') == b + a
    ensures InStep(s, word, (true, |a|, s'))
  {
    Removal(Circle(s), Circle(s'), a, word, b);
  }

  lemma InStepAhead(t: seq<Word>, x: set<nat>, c: nat, word: Word, p: nat)
    requires c <= p < |t| && p == FirstOpen(t, x, word, c, |t|)
    ensures InStep(Scan(t, x, c), word, (true, |Live(t, x, c, p)|, Scan(t, x + {p}, p + 1)))
  {
    LiveAvoids(t, x, word, c, p);
    CirclesAhead(t, x, c, p);
    InStepAfterRemoval(Scan(t, x, c), word, Live(t, x, c, p), Live(t, x, p + 1, |t|) + Live(t, x, 0, c),
                       Scan(t, x + {p}, p + 1));
  }

  lemma InStepBehind(t: seq<Word>, x: set<nat>, c: nat, word: Word, q: nat)
    requires q < c <= |t| == FirstOpen(t, x, word, c, |t|)
    requires q == FirstOpen(t, x, word, 0, c)
    ensures InStep(Scan(t, x, c), word,
                   (true, |Live(t, x, c, |t|)| + |Live(t, x, 0, q)|, Scan(t, x + {q}, q + 1)))
  {
    LiveAvoids(t, x, word, c, |t|);
    LiveAvoids(t, x, word, 0, q);
    CirclesBehind(t, x, c, q);
    InStepAfterRemoval(Scan(t, x, c), word, Live(t, x, c, |t|) + Live(t, x, 0, q), Live(t, x, q + 1, c),
                       Scan(t, x + {q}, q + 1));
  }

  lemma InStepMissing(s: Scan, word: Word)
    requires s.cursor <= |s.title|
    requires FirstOpen(s.title, s.crossed, word, s.cursor, |s.title|) == |s.title|
    requires FirstOpen(s.title, s.crossed, word, 0, s.cursor) == s.cursor
    ensures InStep(s, word, (false, 0, s))
  {
    LiveAvoids(s.title, s.crossed, word, s.cursor, |s.title|);
    LiveAvoids(s.title, s.crossed, word, 0, s.cursor);
    assert word !in Circle(s);
  }

  /** One query word: the deque and the scan find the same, skip the same number, and stay in step. */
  lemma StepRefinesScan(s: Scan, word: Word)
    requires s.cursor <= |s.title|
    ensures InStep(s, word, ScanFor(s, word))
  {
    var (p, q) := (FirstOpen(s.title, s.crossed, word, s.cursor, |s.title|), FirstOpen(s.title, s.crossed, word, 0, s.cursor));
    if p < |s.title| {
      InStepAhead(s.title, s.crossed, s.cursor, word, p);
    } else if q < s.cursor {
      InStepBehind(s.title, s.crossed, s.cursor, word, q);
    } else {
      InStepMissing(s, word);
    }
  }

  // ---------------------------------------------------------------- a whole query

  /** What looking up one query word came to. */
  datatype Hit = Hit(found: bool, skipped: nat)

  /** The outcomes of looking up the query words one after another. */
  function Hits(query: seq<Word>, words: seq<Word>): (hits: seq<Hit>)
    ensures |hits| == |query|
  {
    if query == [] then []
    else
      var found := query[0] in words;
      [Hit(found, if found then IndexOf(words, query[0]) else 0)] + Hits(query[1..], Rotated(words, query[0]))
  }

  /** The words that no query word has removed. */
  function LeftOver(query: seq<Word>, words: seq<Word>): seq<Word> {
    if query == [] then words else LeftOver(query[1..], Rotated(words, query[0]))
  }

  function ScanHits(query: seq<Word>, s: Scan): seq<Hit>
    requires s.cursor <= |s.title|
  {
    if query == [] then []
    else
      var (found, skipped, s') := ScanFor(s, query[0]);
      [Hit(found, skipped)] + ScanHits(query[1..], s')
  }

  function ScanEnd(query: seq<Word>, s: Scan): (end: Scan)
    requires s.cursor <= |s.title|
    ensures end.title == s.title && end.cursor <= |end.title|
  {
    if query == [] then s else ScanEnd(query[1..], ScanFor(s, query[0]).2)
  }

  lemma {:induction false} RunRefinesScan(query: seq<Word>, s: Scan)
    requires s.cursor <= |s.title|
    ensures Hits(query, Circle(s)) == ScanHits(query, s)
    ensures LeftOver(query, Circle(s)) == Circle(ScanEnd(query, s))
    decreases |query|
  {
    if query != [] {
      StepRefinesScan(s, query[0]);
      RunRefinesScan(query[1..], ScanFor(s, query[0]).2);
    }
  }

  /**
   * For every query and title, the rotating deque finds what a circular scan of the fixed title finds, and is
   * left with the words that the scan has not crossed out, read from where the scan stands.
   */
  lemma DequeRefinesScan(query: seq<Word>, title: seq<Word>)
    ensures Hits(query, title) == ScanHits(query, Scan(title, {}, 0))
    ensures LeftOver(query, title) == Circle(ScanEnd(query, Scan(title, {}, 0)))
  {
    LiveAll(title, 0);
    assert Live(title, {}, 0, 0) == [];
    assert Circle(Scan(title, {}, 0)) == title;
    RunRefinesScan(query, Scan(title, {}, 0));
  }

  // ---------------------------------------------------------------- which words are found

  function FoundCount(hits: seq<Hit>): nat {
    if hits == [] then 0 else (if hits[0].found then 1 else 0) + FoundCount(hits[1..])
  }

  lemma MovedAround(before: seq<Word>, word: Word, after: seq<Word>)
    ensures multiset(after + before) == multiset(before + [word] + after) - multiset{word}
  {
  }

  lemma NothingToRemove(m: multiset<Word>, word: Word)
    requires word !in m
    ensures m - multiset{word} == m
  {
  }

  lemma SplitAt(words: seq<Word>, i: nat)
    requires i < |words|
    ensures words == words[..i] + [words[i]] + words[i + 1..]
  {
  }

  lemma RotatedMultiset(words: seq<Word>, word: Word)
    ensures multiset(Rotated(words, word)) == multiset(words) - multiset{word}
  {
    var i := IndexOf(words, word);
    if i == |words| {
      NothingToRemove(multiset(words), word);
    } else {
      SplitAt(words, i);
      MovedAround(words[..i], word, words[i + 1..]);
    }
  }

  lemma IntersectionStep(word: Word, rest: multiset<Word>, words: multiset<Word>)
    ensures |(multiset{word} + rest) * words| == |rest * (words - multiset{word})| + if word in words then 1 else 0
  {
    assert (multiset{word} + rest) * words ==
           (if word in words then multiset{word} else multiset{}) + rest * (words - multiset{word});
  }

  lemma DifferenceStep(word: Word, rest: multiset<Word>, words: multiset<Word>)
    ensures words - (multiset{word} + rest) == words - multiset{word} - rest
  {
  }

  /**
   * Whatever the rotation does, the words found are as many as the multiset intersection of query and title
   * has, and what is left over is the title without them: every occurrence answers at most one query word.
   */
  lemma {:induction false} FoundIsIntersection(query: seq<Word>, words: seq<Word>)
    ensures FoundCount(Hits(query, words)) == |multiset(query) * multiset(words)|
    ensures multiset(LeftOver(query, words)) == multiset(words) - multiset(query)
    decreases |query|
  {
    if query != [] {
      var (word, rest) := (query[0], query[1..]);
      assert query == [word] + rest;
      RotatedMultiset(words, word);
      FoundIsIntersection(rest, Rotated(words, word));
      IntersectionStep(word, multiset(rest), multiset(words));
      DifferenceStep(word, multiset(rest), multiset(words));
      assert Hits(query, words)[1..] == Hits(rest, Rotated(words, word));
      assert multiset(query) == multiset{word} + multiset(rest);
    }
  }

  // ---------------------------------------------------------------- perfect matches

  const MISSED_WORD_PENALTY: nat := 10

  /** The error of one query word: the words skipped before it, or a penalty if it is missing. */
  function HitError(h: Hit): nat {
    if h.found then h.skipped else MISSED_WORD_PENALTY
  }

  predicate Perfect(hits: seq<Hit>) {
    forall i :: 0 <= i < |hits| ==> HitError(hits[i]) == 0
  }

  lemma {:induction false} PerfectIff(query: seq<Word>, words: seq<Word>)
    ensures Perfect(Hits(query, words)) && LeftOver(query, words) == [] <==> words == query
    decreases |query|
  {
    if query != [] {
      var (word, rest) := (query[0], query[1..]);
      var hits := Hits(query, words);
      var after := Rotated(words, word);
      PerfectIff(rest, after);
      assert hits[1..] == Hits(rest, after);
      assert Perfect(hits) <==> HitError(hits[0]) == 0 && Perfect(hits[1..]);
      if HitError(hits[0]) == 0 {
        assert words[0] == word && after == words[1..] + words[..0];
        assert words == [word] + after;
      }
      assert query == [word] + rest;
    }
  }
}

/** The numbers made of a query's hits: the rank of a title, over exact reals, and the rank of a torrent. */
module TorrentRank {
  import opened Outcomes
  import opened TitleRank

  const POSITION_COEFF: nat := 5
  const REMAINDER_COEFF: nat := 10
  const RANK_NORMALIZATION_COEFF: real := 10.0

  function WordWeight(i: nat): (w: real)
    ensures 0.0 < w <= 1.0
  {
    POSITION_COEFF as real / (POSITION_COEFF + i) as real
  }

  /** What so many errors at query word `i` cost. */
  function Cost(errors: nat, i: nat): real {
    errors as real * WordWeight(i)
  }

  /** What these hits cost together, the first of which belongs to query word `i`. */
  function Weighted(hits: seq<Hit>, i: nat, cost: (nat, nat) -> real): real {
    if hits == [] then 0.0 else cost(HitError(hits[0]), i) + Weighted(hits[1..], i + 1, cost)
  }

  /** A small penalty for the title words that no query word asked for. */
  function RemainderError(left: nat, queryLength: nat): (e: real)
    ensures e >= 0.0 && (e == 0.0 <==> left == 0)
  {
    var weight := 1.0 / (REMAINDER_COEFF + queryLength) as real;
    Product(left as real, weight);
    left as real * weight
  }

  /** The error of these hits when so many title words are left over. */
  function TotalError(hits: seq<Hit>, left: nat): (e: real)
    ensures e >= 0.0
  {
    WeightedIsZeroIff(hits, 0);
    Weighted(hits, 0, Cost) + RemainderError(left, |hits|)
  }

  function Normalized(error: real): (r: real)
    requires error >= 0.0
    ensures 0.0 < r <= 1.0
    ensures r == 1.0 <==> error == 0.0
  {
    var d := RANK_NORMALIZATION_COEFF + error;
    assert RANK_NORMALIZATION_COEFF / d * d == RANK_NORMALIZATION_COEFF;
    RANK_NORMALIZATION_COEFF / d
  }

  function Rank(query: seq<Word>, title: seq<Word>): (r: real)
    ensures 0.0 <= r <= 1.0
  {
    if query == [] then 1.0
    else if title == [] then 0.0
    else Normalized(TotalError(Hits(query, title), |LeftOver(query, title)|))
  }

  /** calculate_rank */
  method CalculateRank(query: seq<Word>, title: seq<Word>) returns (rank: real)
    ensures rank == Rank(query, title)
  {
    if |query| == 0 {
      return 1.0;
    }
    if |title| == 0 {
      return 0.0;
    }
    var qTitle := new TitleDeque(title);
    var totalError := MatchWords(query, qTitle, Cost);
    totalError := totalError + RemainderError(|qTitle.words|, |query|);
    assert totalError == TotalError(Hits(query, title), |LeftOver(query, title)|);
    rank := Normalized(totalError);
  }

  /** The loop of calculate_rank over the query words, for any cost of an error at a position. */
  method MatchWords(query: seq<Word>, qTitle: TitleDeque, cost: (nat, nat) -> real) returns (totalError: real)
    modifies qTitle
    ensures totalError == Weighted(Hits(query, old(qTitle.words)), 0, cost)
    ensures qTitle.words == LeftOver(query, old(qTitle.words))
  {
    totalError := 0.0;
    var i := 0;
    assert query[0..] == query;
    while i < |query|
      invariant 0 <= i <= |query|
      invariant totalError + Weighted(Hits(query[i..], qTitle.words), i, cost) ==
                Weighted(Hits(query, old(qTitle.words)), 0, cost)
      invariant LeftOver(query[i..], qTitle.words) == LeftOver(query, old(qTitle.words))
    {
      HitsStep(query, i, qTitle.words);
      var found, skipped := qTitle.FindWordAndRotate(query[i]);
      if found {
        totalError := totalError + cost(skipped, i);
      } else {
        totalError := totalError + cost(MISSED_WORD_PENALTY, i);
      }
      i := i + 1;
    }
  }

  lemma HitsStep(query: seq<Word>, i: nat, words: seq<Word>)
    requires i < |query|
    ensures var hits := Hits(query[i..], words);
            var found := query[i] in words;
            && hits[0] == Hit(found, if found then IndexOf(words, query[i]) else 0)
            && hits[1..] == Hits(query[i + 1..], Rotated(words, query[i]))
            && LeftOver(query[i..], words) == LeftOver(query[i + 1..], Rotated(words, query[i]))
  {
    assert query[i..][0] == query[i] && query[i..][1..] == query[i + 1..];
  }

  lemma Product(a: real, b: real)
    requires a >= 0.0 && b > 0.0
    ensures a * b >= 0.0 && (a * b == 0.0 <==> a == 0.0)
  {
  }

  lemma {:induction false} WeightedIsZeroIff(hits: seq<Hit>, i: nat)
    ensures Weighted(hits, i, Cost) >= 0.0
    ensures Weighted(hits, i, Cost) == 0.0 <==> Perfect(hits)
    decreases |hits|
  {
    if hits != [] {
      WeightedIsZeroIff(hits[1..], i + 1);
      Product(HitError(hits[0]) as real, WordWeight(i));
      assert Perfect(hits) <==> HitError(hits[0]) == 0 && Perfect(hits[1..]);
    }
  }

  // ---------------------------------------------------------------- what costs more

  lemma WeightIs(i: nat)
    ensures WordWeight(i) * (5 + i) as real == 5.0
  {
    var w := WordWeight(i);
    assert w == 5.0 / (5 + i) as real;
  }

  /** Two weights with the same product: the one of the larger position is the smaller one. */
  lemma SmallerFactor(x: real, y: real, a: real, b: real)
    requires 0.0 < a < b && y > 0.0 && x * a == y * b
    ensures x > y
  {
    var d := b - a;
    assert y * b == y * a + y * d && y * d > 0.0;
    assert (x - y) * a == x * a - y * a;
  }

  /** The first word is more important than the next one and so on, and word 5 half as important as word 0. */
  lemma EarlierWeighsMore(i: nat, j: nat)
    requires i < j
    ensures WordWeight(i) > WordWeight(j)
    ensures WordWeight(0) == 1.0 && WordWeight(5) == 0.5
  {
    WeightIs(i);
    WeightIs(j);
    SmallerFactor(WordWeight(i), WordWeight(j), (5 + i) as real, (5 + j) as real);
    WeightIs(0);
    WeightIs(5);
  }

  lemma {:induction false} WeightedChanged(hits: seq<Hit>, i: nat, cost: (nat, nat) -> real, k: nat, hit: Hit)
    requires k < |hits|
    ensures Weighted(hits[k := hit], i, cost) ==
            Weighted(hits, i, cost) - cost(HitError(hits[k]), i + k) + cost(HitError(hit), i + k)
    decreases |hits|
  {
    if k == 0 {
      assert hits[0 := hit][1..] == hits[1..];
    } else {
      assert hits[k := hit][1..] == hits[1..][k - 1 := hit];
      WeightedChanged(hits[1..], i + 1, cost, k - 1, hit);
    }
  }

  /** The same error moved from an earlier query word to a later one, which had none, costs less. */
  lemma LaterErrorCostsLess(hits: seq<Hit>, i: nat, j: nat)
    requires i < j < |hits| && HitError(hits[i]) > 0 && HitError(hits[j]) == 0
    ensures Weighted(hits[i := hits[j]][j := hits[i]], 0, Cost) < Weighted(hits, 0, Cost)
  {
    var e := HitError(hits[i]);
    var moved := hits[i := hits[j]];
    WeightedChanged(hits, 0, Cost, i, hits[j]);
    WeightedChanged(moved, 0, Cost, j, hits[i]);
    CostOf(e, i, j);
  }

  lemma CostOf(e: nat, i: nat, j: nat)
    requires i < j
    ensures Cost(0, i) == Cost(0, j) == 0.0
    ensures e > 0 ==> Cost(e, i) > Cost(e, j)
  {
    EarlierWeighsMore(i, j);
    if e > 0 {
      StrictlyGrows(e as real, WordWeight(j), WordWeight(i));
    }
  }

  lemma StrictlyGrows(a: real, x: real, y: real)
    requires a > 0.0 && x < y
    ensures a * x < a * y
  {
    assert a * (y - x) > 0.0;
  }

  /** A larger error at the same word costs more: a word skipped more, or more of them than a missing word counts. */
  lemma LargerErrorCostsMore(hits: seq<Hit>, k: nat, hit: Hit)
    requires k < |hits| && HitError(hits[k]) < HitError(hit)
    ensures Weighted(hits, 0, Cost) < Weighted(hits[k := hit], 0, Cost)
  {
    WeightedChanged(hits, 0, Cost, k, hit);
    CostGrows(HitError(hits[k]), HitError(hit), k);
  }

  lemma CostGrows(e: nat, more: nat, i: nat)
    requires e < more
    ensures Cost(e, i) < Cost(more, i)
  {
    StrictlyGrows(WordWeight(i), e as real, more as real);
  }

  /** A missing word costs as much as ten skipped ones. */
  lemma MissingCostsTen(hits: seq<Hit>, k: nat, n: nat)
    requires k < |hits|
    ensures Weighted(hits[k := Hit(false, n)], 0, Cost) == Weighted(hits[k := Hit(true, 10)], 0, Cost)
  {
    WeightedChanged(hits, 0, Cost, k, Hit(false, n));
    WeightedChanged(hits, 0, Cost, k, Hit(true, 10));
  }

  lemma RemainderIs(left: nat, n: nat)
    ensures RemainderError(left, n) * (10 + n) as real == left as real
  {
    var weight := 1.0 / (REMAINDER_COEFF + n) as real;
    assert weight * (10 + n) as real == 1.0;
    assert left as real * weight * (10 + n) as real == left as real * (weight * (10 + n) as real);
  }

  /** A title word that nobody asked for costs less than any error of one at a query word. */
  lemma RemainderIsSlight(n: nat, i: nat)
    requires i < n
    ensures 0.0 < RemainderError(1, n) < Cost(1, i)
  {
    RemainderIs(1, n);
    WeightIs(i);
    var (r, w) := (RemainderError(1, n), WordWeight(i));
    assert 5.0 * r * (10 + n) as real == 5.0 * (r * (10 + n) as real);
    SmallerFactor(w, 5.0 * r, (5 + i) as real, (10 + n) as real);
  }

  /** A larger error makes a lower rank; an error of ten makes one half. */
  lemma LargerErrorRanksLower(a: real, b: real)
    requires 0.0 <= a < b
    ensures Normalized(a) > Normalized(b)
    ensures Normalized(a) * (10.0 + a) == 10.0 && Normalized(10.0) == 0.5
  {
    NormalizedIs(a);
    NormalizedIs(b);
    NormalizedIs(10.0);
    SmallerFactor(Normalized(a), Normalized(b), 10.0 + a, 10.0 + b);
  }

  lemma NormalizedIs(error: real)
    requires error >= 0.0
    ensures Normalized(error) * (10.0 + error) == 10.0
  {
  }

  /** The costs of all query words, and the penalty for what is left of the title. */
  function ErrorOf(query: seq<Word>, title: seq<Word>): real {
    Weighted(Hits(query, title), 0, Cost) + RemainderError(|LeftOver(query, title)|, |query|)
  }

  /** What the rank of a title is made of, for any two titles: the one with the larger total error ranks lower. */
  lemma RankFollowsError(query: seq<Word>, a: seq<Word>, b: seq<Word>)
    requires query != [] && a != [] && b != []
    ensures Rank(query, a) > Rank(query, b) <==> ErrorOf(query, a) < ErrorOf(query, b)
    ensures ErrorOf(query, a) >= 0.0 && Rank(query, a) * (10.0 + ErrorOf(query, a)) == 10.0
  {
    RankIsNormalized(query, a);
    RankIsNormalized(query, b);
    SmallerErrorIff(ErrorOf(query, a), ErrorOf(query, b));
  }

  lemma RankIsNormalized(query: seq<Word>, title: seq<Word>)
    requires query != [] && title != []
    ensures ErrorOf(query, title) >= 0.0 && Rank(query, title) == Normalized(ErrorOf(query, title))
  {
    var x := TotalError(Hits(query, title), |LeftOver(query, title)|);
    assert x >= 0.0;
  }

  lemma SmallerErrorIff(x: real, y: real)
    requires x >= 0.0 && y >= 0.0
    ensures Normalized(x) > Normalized(y) <==> x < y
    ensures Normalized(x) * (10.0 + x) == 10.0
  {
    NormalizedIs(x);
    if x < y {
      LargerErrorRanksLower(x, y);
    } else if y < x {
      LargerErrorRanksLower(y, x);
    }
  }

  /** For a query that is not empty, rank 1 means that the title is the query, word for word; rank 0, that it is empty. */
  lemma RankIsOneIff(query: seq<Word>, title: seq<Word>)
    requires query != []
    ensures Rank(query, title) == 1.0 <==> title == query
    ensures Rank(query, title) == 0.0 <==> title == []
    ensures Rank([], title) == 1.0
  {
    if title != [] {
      WeightedIsZeroIff(Hits(query, title), 0);
      PerfectIff(query, title);
    }
  }

  /** The rank is the one that a circular scan of the fixed title gives. */
  lemma RankRefinesScan(query: seq<Word>, title: seq<Word>)
    requires query != [] && title != []
    ensures var s := Scan(title, {}, 0);
            Rank(query, title) == Normalized(TotalError(ScanHits(query, s), |Circle(ScanEnd(query, s))|))
  {
    DequeRefinesScan(query, title);
  }

  // ---------------------------------------------------------------- the rank of a torrent

  /** seeders_rank; swarm sizes are not negative. */
  function SeedersRank(seeders: nat, leechers: nat): (r: real)
    ensures 0.0 <= r < 1.0
  {
    var sl := seeders as real + leechers as real * 0.1;
    sl / (100.0 + sl)
  }

  const SECONDS_IN_DAY: real := 86400.0

  /** freshness_rank */
  function FreshnessRank(freshness: Option<real>): (r: real)
    ensures 0.0 <= r <= 1.0
  {
    if freshness.None? || freshness.value < 0.0 then 0.0
    else 1.0 / (1.0 + freshness.value / SECONDS_IN_DAY / 30.0)
  }

  /** A rank scaled by two others, each of which takes off a tenth at most. */
  function Weigh(title: real, swarm: real, freshness: real): real {
    title * ((swarm + 9.0) / 10.0) * ((freshness + 9.0) / 10.0)
  }

  /** torrent_rank, given the rank of the title. */
  function Combined(title: real, seeders: nat, leechers: nat, freshness: Option<real>): real {
    Weigh(title, SeedersRank(seeders, leechers), FreshnessRank(freshness))
  }

  lemma Scaled(a: real, b: real, lo: real)
    requires a >= 0.0 && 0.0 < lo <= b <= 1.0
    ensures a * lo <= a * b <= a
  {
    assert a * (1.0 - b) >= 0.0;
    assert a * (b - lo) >= 0.0;
  }

  /** The swarm and the age take at most 19% off the title rank and add nothing, so the result stays in [0, 1]. */
  lemma CombinedFollowsTitle(title: real, seeders: nat, leechers: nat, freshness: Option<real>)
    requires 0.0 <= title <= 1.0
    ensures 0.81 * title <= Combined(title, seeders, leechers, freshness) <= title
  {
    var s := (SeedersRank(seeders, leechers) + 9.0) / 10.0;
    var f := (FreshnessRank(freshness) + 9.0) / 10.0;
    Scaled(title, s, 0.9);
    Scaled(title * s, f, 0.9);
  }

  /** More seeders or leechers never lower a torrent's rank. */
  lemma MoreSeedersRankHigher(
      title: real, seeders: nat, leechers: nat, more: nat, moreLeechers: nat, freshness: Option<real>)
    requires 0.0 <= title && seeders <= more && leechers <= moreLeechers
    ensures Combined(title, seeders, leechers, freshness) <= Combined(title, more, moreLeechers, freshness)
  {
    SeedersRankGrows(seeders, leechers, more, moreLeechers);
    var f := (FreshnessRank(freshness) + 9.0) / 10.0;
    var (s, t) := ((SeedersRank(seeders, leechers) + 9.0) / 10.0, (SeedersRank(more, moreLeechers) + 9.0) / 10.0);
    ProductGrows(title, s, t);
    ProductGrows(f, title * s, title * t);
  }

  /** A hundred seeders rank one half, and ten leechers count as one seeder. */
  lemma SeedersRankIs(seeders: nat, tens: nat)
    ensures SeedersRank(100, 0) == 0.5
    ensures SeedersRank(seeders, 10 * tens) == SeedersRank(seeders + tens, 0)
    ensures SeedersRank(seeders, 0) * (100 + seeders) as real == seeders as real
  {
    assert (10 * tens) as real * 0.1 == tens as real;
    var q := SeedersRank(seeders, 0);
    assert q == seeders as real / (100.0 + seeders as real);
  }

  /** Fresher torrents rank higher; after thirty days it is one half, and an unknown date counts like endless age. */
  lemma FresherRanksHigher(age: real, more: real)
    requires 0.0 <= age < more
    ensures FreshnessRank(Some(age)) > FreshnessRank(Some(more)) > FreshnessRank(None)
    ensures FreshnessRank(Some(0.0)) == 1.0 && FreshnessRank(Some(2592000.0)) == 0.5
    ensures FreshnessRank(None) == 0.0 && FreshnessRank(Some(-1.0)) == 0.0
  {
    FreshnessIs(age);
    FreshnessIs(more);
    var (x, y) := (1.0 + age / 86400.0 / 30.0, 1.0 + more / 86400.0 / 30.0);
    SmallerFactor(FreshnessRank(Some(age)), FreshnessRank(Some(more)), x, y);
  }

  lemma FreshnessIs(age: real)
    requires age >= 0.0
    ensures FreshnessRank(Some(age)) > 0.0
    ensures FreshnessRank(Some(age)) * (1.0 + age / 86400.0 / 30.0) == 1.0
  {
    var d := 1.0 + age / 86400.0 / 30.0;
    assert d > 0.0 && FreshnessRank(Some(age)) == 1.0 / d;
  }

  /** A fresher torrent ranks higher as a whole, at equal titles and swarms. */
  lemma FresherTorrentRanksHigher(title: real, seeders: nat, leechers: nat, age: real, more: real)
    requires 0.0 < title && 0.0 <= age < more
    ensures Combined(title, seeders, leechers, Some(age)) > Combined(title, seeders, leechers, Some(more))
    ensures Combined(title, seeders, leechers, Some(more)) > Combined(title, seeders, leechers, None)
  {
    FresherRanksHigher(age, more);
    CombinedGrows(title, seeders, leechers, Some(more), Some(age));
    CombinedGrows(title, seeders, leechers, None, Some(more));
  }

  lemma CombinedGrows(title: real, seeders: nat, leechers: nat, f: Option<real>, g: Option<real>)
    requires 0.0 < title && FreshnessRank(f) < FreshnessRank(g)
    ensures Combined(title, seeders, leechers, f) < Combined(title, seeders, leechers, g)
  {
    HigherFactor(title, SeedersRank(seeders, leechers), FreshnessRank(f), FreshnessRank(g));
  }

  lemma HigherFactor(title: real, s: real, x: real, y: real)
    requires 0.0 < title && 0.0 <= s && x < y
    ensures Weigh(title, s, x) < Weigh(title, s, y)
  {
    var (factor, u, v) := (title * ((s + 9.0) / 10.0), (x + 9.0) / 10.0, (y + 9.0) / 10.0);
    assert factor > 0.0;
    StrictlyGrows(factor, u, v);
    assert Weigh(title, s, x) == factor * u && Weigh(title, s, y) == factor * v;
  }

  /** A perfect title, a hundred seeders and thirty days: both factors are at half of their range. */
  lemma CombinedIs()
    ensures Combined(1.0, 100, 0, Some(2592000.0)) == 0.9025
  {
    FresherRanksHigher(0.0, 1.0);
    SeedersRankIs(0, 0);
    var (s, f) := (SeedersRank(100, 0), FreshnessRank(Some(2592000.0)));
    assert s == 0.5 && f == 0.5;
    assert Combined(1.0, 100, 0, Some(2592000.0)) == 1.0 * ((s + 9.0) / 10.0) * ((f + 9.0) / 10.0);
  }

  lemma SeedersRankGrows(seeders: nat, leechers: nat, more: nat, moreLeechers: nat)
    requires seeders <= more && leechers <= moreLeechers
    ensures SeedersRank(seeders, leechers) <= SeedersRank(more, moreLeechers)
  {
    var (a, b) := (seeders as real + leechers as real * 0.1, more as real + moreLeechers as real * 0.1);
    Fraction(a, 100.0 + a);
    Fraction(b, 100.0 + b);
    FractionGrows(a, b, a / (100.0 + a), b / (100.0 + b));
  }

  lemma Fraction(a: real, n: real)
    requires 0.0 <= a <= n && n > 0.0
    ensures a / n * n == a && 0.0 <= a / n <= 1.0
  {
    var q := a / n;
    assert q * n == a;
    FactorIsNatural(q, n);
    assert (1.0 - q) * n == n - q * n;
    FactorIsNatural(1.0 - q, n);
  }

  lemma ProductGrows(a: real, x: real, y: real)
    requires 0.0 <= a && x <= y
    ensures a * x <= a * y
  {
    assert a * (y - x) >= 0.0;
  }

  lemma FractionGrows(a: real, b: real, x: real, y: real)
    requires 0.0 <= a <= b && 0.0 <= x <= 1.0
    requires x * (100.0 + a) == a && y * (100.0 + b) == b
    ensures x <= y
  {
    var (d, n) := (y - x, 100.0 + b);
    ProductGrows(b - a, x, 1.0);
    assert x * n == x * (100.0 + a) + (b - a) * x;
    assert d * n == y * n - x * n;
    FactorIsNatural(d, n);
  }

  lemma FactorIsNatural(d: real, n: real)
    requires n > 0.0 && d * n >= 0.0
    ensures d >= 0.0
  {
  }
}
