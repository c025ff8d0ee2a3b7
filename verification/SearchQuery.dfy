/** The SQL query made of the phrases of a search: its text, its parameters, and the titles it selects. */
module SearchQuery {
  import opened Outcomes
  import opened LikePatterns
  import opened Augmenter

  const TERM: string := "title LIKE ?"
  const OR: string := " OR "
  const AND: string := " AND "

  /** The query text and the parameters for its question marks. */
  datatype Augmented = Augmented(query: string, parameters: seq<string>)

  datatype AugmentError = IndexError

  /** sep.join(parts) */
  function SepJoin(parts: seq<string>, sep: string): string {
    if parts == [] then ""
    else if |parts| == 1 then parts[0]
    else parts[0] + sep + SepJoin(parts[1..], sep)
  }

  function Repeat(part: string, n: nat): (parts: seq<string>)
    ensures |parts| == n
  {
    if n == 0 then [] else [part] + Repeat(part, n - 1)
  }

  /** The condition for one phrase. */
  function Condition(phrase: Phrase): string {
    if |phrase| == 1 then TERM else "(" + SepJoin(Repeat(TERM, |Patterns(phrase)|), OR) + ")"
  }

  function Conditions(phrases: seq<Phrase>): seq<string> {
    if phrases == [] then [] else [Condition(phrases[0])] + Conditions(phrases[1..])
  }

  function Parameters(phrases: seq<Phrase>): seq<string> {
    if phrases == [] then [] else Patterns(phrases[0]) + Parameters(phrases[1..])
  }

  function DecimalText(n: nat): (s: string)
    ensures forall i :: 0 <= i < |s| ==> '0' <= s[i] <= '9'
  {
    if n < 10 then [(n + '0' as int) as char] else DecimalText(n / 10) + [(n % 10 + '0' as int) as char]
  }

  const SELECT: string := "SELECT rowid FROM ChannelNode WHERE "

  function Paging(limit: nat, offset: nat): (s: string)
    ensures '?' !in s
  {
    " LIMIT " + DecimalText(limit) + " OFFSET " + DecimalText(offset)
  }

  function QueryText(conjunction: string, limit: nat, offset: nat): string {
    SELECT + conjunction + Paging(limit, offset)
  }

  // ---------------------------------------------------------------- the three loops

  /** The innermost loop: all pieces but one. */
  method LeaveOut(phrase: Phrase, i: nat) returns (permutation: string)
    requires i < |phrase|
    ensures permutation == Permutation(phrase, i, 0)
  {
    permutation := "";
    var j := 0;
    while j < |phrase|
      invariant 0 <= j <= |phrase|
      invariant permutation + Permutation(phrase, i, j) == Permutation(phrase, i, 0)
    {
      if i != j && |phrase| > 1 {
        permutation := permutation + (phrase[j] + (if j + 1 == i then "%" else ""));
      }
      j := j + 1;
    }
  }

  lemma PatternStep(phrase: Phrase, i: nat, permutation: string, parameters: seq<string>)
    requires i < |phrase| && permutation == Permutation(phrase, i, 0)
    ensures parameters + PatternsFrom(phrase, i) ==
            (if permutation == "" then parameters else parameters + [Pattern(permutation)]) + PatternsFrom(phrase, i + 1)
  {
    var rest := PatternsFrom(phrase, i + 1);
    if permutation == "" {
      assert PatternsFrom(phrase, i) == rest;
    } else {
      assert PatternsFrom(phrase, i) == [Pattern(permutation)] + rest;
    }
  }

  /** The middle loop: the disjunction for a phrase of several pieces. */
  method Disjunction(phrase: Phrase) returns (disjunctionLen: nat, parameters: seq<string>)
    requires |phrase| != 1
    ensures parameters == Patterns(phrase) && disjunctionLen == |parameters|
  {
    disjunctionLen, parameters := 0, [];
    var i := 0;
    while i < |phrase|
      invariant 0 <= i <= |phrase|
      invariant parameters + PatternsFrom(phrase, i) == PatternsFrom(phrase, 0)
      invariant disjunctionLen == |parameters|
    {
      var permutation := LeaveOut(phrase, i);
      PatternStep(phrase, i, permutation, parameters);
      if permutation != "" {
        disjunctionLen := disjunctionLen + 1;
        parameters := parameters + ["%" + permutation + (if EndsWithPercent(permutation) then "" else "%")];
      }
      i := i + 1;
    }
  }

  lemma PhraseStep(phrases: seq<Phrase>, k: nat, conjunction: seq<string>, parameters: seq<string>)
    requires k < |phrases|
    ensures conjunction + Conditions(phrases[k..]) ==
            (conjunction + [Condition(phrases[k])]) + Conditions(phrases[k + 1..])
    ensures parameters + Parameters(phrases[k..]) ==
            (parameters + Patterns(phrases[k])) + Parameters(phrases[k + 1..])
  {
    assert phrases[k..][0] == phrases[k] && phrases[k..][1..] == phrases[k + 1..];
  }

  /** The outer loop: a condition and its parameters for every phrase. */
  method Conjoin(phrases: seq<Phrase>) returns (conjunction: seq<string>, parameters: seq<string>)
    ensures conjunction == Conditions(phrases) && parameters == Parameters(phrases)
  {
    conjunction, parameters := [], [];
    var k := 0;
    assert phrases[0..] == phrases;
    while k < |phrases|
      invariant 0 <= k <= |phrases|
      invariant conjunction + Conditions(phrases[k..]) == Conditions(phrases)
      invariant parameters + Parameters(phrases[k..]) == Parameters(phrases)
    {
      var phrase := phrases[k];
      PhraseStep(phrases, k, conjunction, parameters);
      var condition, patterns;
      if |phrase| == 1 {
        patterns := ["%" + phrase[0] + "%"];
        condition := TERM;
      } else {
        var disjunctionLen;
        disjunctionLen, patterns := Disjunction(phrase);
        condition := "(" + SepJoin(Repeat(TERM, disjunctionLen), OR) + ")";
      }
      assert condition == Condition(phrase) && patterns == Patterns(phrase);
      parameters := parameters + patterns;
      conjunction := conjunction + [condition];
      k := k + 1;
    }
  }

  /** augment, given the pieces that the tokenizer makes of the search. */
  method Augment(pieces: seq<string>, limit: nat, offset: nat) returns (r: Result<Augmented, AugmentError>)
    ensures r == Augmentation(pieces, limit, offset)
  {
    if |pieces| == 0 {
      return Ok(Augmented(TERM, ["%"]));
    }
    var phrases := ToPhrases(pieces);
    var conjunction, parameters := Conjoin(phrases);
    var conjunctionStr := SepJoin(conjunction, AND);
    PhrasesFlatten(pieces);
    ConditionsAreLong(phrases);
    if |conjunctionStr| <= 2 {
      // Only without any phrase; the replacement text then needs phrases[0].
      return Err(IndexError);
    }
    r := Ok(Augmented(QueryText(conjunctionStr, limit, offset), parameters));
  }

  function Augmentation(pieces: seq<string>, limit: nat, offset: nat): Result<Augmented, AugmentError> {
    if pieces == [] then Ok(Augmented(TERM, ["%"]))
    else if Phrases(pieces) == [] then Err(IndexError)
    else
      Ok(Augmented(QueryText(SepJoin(Conditions(Phrases(pieces)), AND), limit, offset), Parameters(Phrases(pieces))))
  }

  lemma ConditionsAreLong(phrases: seq<Phrase>)
    requires forall i :: 0 <= i < |phrases| ==> phrases[i] != []
    ensures |SepJoin(Conditions(phrases), AND)| <= 2 <==> phrases == []
  {
    if phrases != [] {
      PatternsHold(phrases[0], "");
      assert Repeat(TERM, |Patterns(phrases[0])|) != [];
      assert |Condition(phrases[0])| >= |TERM|;
    }
  }

  // ---------------------------------------------------------------- when it fails

  lemma {:induction false} NoPhrasesIff(pieces: seq<string>, current: Phrase)
    ensures PhrasesFrom(pieces, current) == [] <==>
            current == [] && forall i :: 0 <= i < |pieces| ==> pieces[i] == [MARKER]
    decreases |pieces|
  {
    if pieces != [] {
      var rest := pieces[1..];
      assert (forall i :: 0 <= i < |pieces| ==> pieces[i] == [MARKER]) <==>
             pieces[0] == [MARKER] && (forall i :: 0 <= i < |rest| ==> rest[i] == [MARKER]) by {
        assert forall i :: 1 <= i < |pieces| ==> pieces[i] == rest[i - 1];
      }
      NoPhrasesIff(rest, if !Marked(pieces[0]) then current + [pieces[0]]
                         else if pieces[0] == [MARKER] then [] else [pieces[0][1..]]);
    }
  }

  /** A search that is one marker passes the test for no pieces, and then there is no phrase to fall back on. */
  lemma BareMarkerFails(limit: nat, offset: nat)
    ensures Phrases([[MARKER]]) == [] && Augmentation([[MARKER]], limit, offset) == Err(IndexError)
  {
    AugmentFailsIff([[MARKER]], limit, offset);
  }

  /** The only searches it cannot augment are those made of nothing but bare markers. */
  lemma AugmentFailsIff(pieces: seq<string>, limit: nat, offset: nat)
    ensures Augmentation(pieces, limit, offset).Err? <==>
            pieces != [] && forall i :: 0 <= i < |pieces| ==> pieces[i] == [MARKER]
  {
    NoPhrasesIff(pieces, []);
  }

  // ---------------------------------------------------------------- question marks

  function Marks(s: string): nat {
    if s == "" then 0 else (if s[0] == '?' then 1 else 0) + Marks(s[1..])
  }

  lemma {:induction false} MarksConcat(a: string, b: string)
    ensures Marks(a + b) == Marks(a) + Marks(b)
  {
    if a == "" {
      assert a + b == b;
    } else {
      assert (a + b)[1..] == a[1..] + b;
      MarksConcat(a[1..], b);
    }
  }

  lemma {:induction false} NoMarks(s: string)
    requires '?' !in s
    ensures Marks(s) == 0
  {
    if s != "" {
      NoMarks(s[1..]);
    }
  }

  lemma MarkAtEnd(s: string)
    requires s != "" && s[|s| - 1] == '?' && '?' !in s[..|s| - 1]
    ensures Marks(s) == 1
  {
    var (init, last) := (s[..|s| - 1], [s[|s| - 1]]);
    assert s == init + last;
    MarksConcat(init, last);
    NoMarks(init);
    assert Marks(last) == 1 + Marks(last[1..]);
  }

  lemma MarksBetween(start: string, inner: string, end: string)
    requires '?' !in start && '?' !in end
    ensures Marks(start + inner + end) == Marks(inner)
  {
    MarksConcat(start + inner, end);
    MarksConcat(start, inner);
    NoMarks(start);
    NoMarks(end);
  }

  lemma MarksOfTerm()
    ensures Marks(TERM) == 1
  {
    MarkAtEnd(TERM);
  }

  function TotalMarks(parts: seq<string>): nat {
    if parts == [] then 0 else Marks(parts[0]) + TotalMarks(parts[1..])
  }

  lemma {:induction false} MarksJoined(parts: seq<string>, sep: string)
    requires '?' !in sep
    ensures Marks(SepJoin(parts, sep)) == TotalMarks(parts)
    decreases |parts|
  {
    if |parts| == 1 {
      assert parts[1..] == [];
    } else if |parts| > 1 {
      MarksConcat(parts[0] + sep, SepJoin(parts[1..], sep));
      MarksConcat(parts[0], sep);
      NoMarks(sep);
      MarksJoined(parts[1..], sep);
    }
  }

  lemma {:induction false} MarksRepeated(part: string, n: nat)
    requires Marks(part) == 1
    ensures TotalMarks(Repeat(part, n)) == n
  {
    if n > 0 {
      MarksRepeated(part, n - 1);
      assert Repeat(part, n)[1..] == Repeat(part, n - 1);
    }
  }

  lemma NoMarkInOr()
    ensures '?' !in OR && '?' !in "(" && '?' !in ")"
  {
    assert OR == [' ', 'O', 'R', ' '];
  }

  /** A phrase's condition asks for as many parameters as the phrase has patterns. */
  lemma MarksOfCondition(phrase: Phrase)
    ensures Marks(Condition(phrase)) == |Patterns(phrase)|
  {
    if |phrase| == 1 {
      MarksOfTerm();
    } else {
      MarksOfTerm();
      NoMarkInOr();
      MarksOfList("(", TERM, OR, ")", |Patterns(phrase)|);
    }
  }


  lemma MarksOfList(start: string, part: string, sep: string, end: string, n: nat)
    requires Marks(part) == 1 && '?' !in start && '?' !in sep && '?' !in end
    ensures Marks(start + SepJoin(Repeat(part, n), sep) + end) == n
  {
    MarksBetween(start, SepJoin(Repeat(part, n), sep), end);
    MarksJoined(Repeat(part, n), sep);
    MarksRepeated(part, n);
  }

  lemma {:induction false} MarksOfConditions(phrases: seq<Phrase>)
    ensures TotalMarks(Conditions(phrases)) == |Parameters(phrases)|
    decreases |phrases|
  {
    if phrases != [] {
      MarksOfCondition(phrases[0]);
      MarksOfConditions(phrases[1..]);
    }
  }

  /** Every augmented query has exactly one parameter for each of its question marks. */
  lemma MarksMatchParameters(pieces: seq<string>, limit: nat, offset: nat)
    requires Augmentation(pieces, limit, offset).Ok?
    ensures var a := Augmentation(pieces, limit, offset).value; Marks(a.query) == |a.parameters|
  {
    if pieces == [] {
      MarksOfTerm();
    } else {
      var phrases := Phrases(pieces);
      MarksBetween(SELECT, SepJoin(Conditions(phrases), AND), Paging(limit, offset));
      MarksJoined(Conditions(phrases), AND);
      MarksOfConditions(phrases);
    }
  }

  // ---------------------------------------------------------------- meaning

  /**
   * The titles a conjunction selects: the parameters are used up from left to right, as many for each condition
   * as it has question marks, and one of them must match.
   */
  predicate Selects(conditions: seq<string>, parameters: seq<string>, title: string) {
    if conditions == [] then true
    else
      var n := Marks(conditions[0]);
      && n <= |parameters|
      && (exists k :: 0 <= k < n && Like(parameters[k], title))
      && Selects(conditions[1..], parameters[n..], title)
  }

  predicate ContainsAll(phrases: seq<Phrase>, title: string) {
    forall i :: 0 <= i < |phrases| ==> Contains(title, Join(phrases[i]))
  }

  lemma SelectsStep(phrases: seq<Phrase>, title: string)
    requires phrases != []
    ensures Selects(Conditions(phrases), Parameters(phrases), title) <==>
            AnyMatches(Patterns(phrases[0]), title) && Selects(Conditions(phrases[1..]), Parameters(phrases[1..]), title)
  {
    var (first, rest) := (Patterns(phrases[0]), Parameters(phrases[1..]));
    MarksOfCondition(phrases[0]);
    assert Conditions(phrases)[1..] == Conditions(phrases[1..]);
    Leading(first, rest, title);
  }

  lemma Leading(first: seq<string>, rest: seq<string>, title: string)
    ensures (first + rest)[|first|..] == rest
    ensures AnyMatches(first, title) <==> exists k :: 0 <= k < |first| && Like((first + rest)[k], title)
  {
    assert forall k :: 0 <= k < |first| ==> (first + rest)[k] == first[k];
  }

  lemma {:induction false} PhrasesSelect(phrases: seq<Phrase>, title: string)
    requires forall i :: 0 <= i < |phrases| ==> phrases[i] != []
    requires ContainsAll(phrases, title)
    ensures Selects(Conditions(phrases), Parameters(phrases), title)
    decreases |phrases|
  {
    if phrases != [] {
      PatternsHold(phrases[0], title);
      assert Like(Patterns(phrases[0])[0], title);
      assert forall i :: 0 <= i < |phrases[1..]| ==> phrases[1..][i] == phrases[i + 1];
      PhrasesSelect(phrases[1..], title);
      SelectsStep(phrases, title);
    }
  }

  /**
   * Augmentation only weakens a search: for all pieces, also with wildcard characters in them, every title
   * that contains each word is selected by the query. An empty search selects every title.
   */
  lemma AugmentOnlyWeakens(pieces: seq<string>, title: string)
    requires ContainsAll(Phrases(pieces), title)
    ensures if pieces == [] then Selects([TERM], ["%"], title)
            else Selects(Conditions(Phrases(pieces)), Parameters(Phrases(pieces)), title)
  {
    if pieces == [] {
      MarksOfTerm();
      PercentMatchesAll(title);
      assert Like(["%"][0], title);
    } else {
      PhrasesFlatten(pieces);
      PhrasesSelect(Phrases(pieces), title);
    }
  }

  lemma SinglePieceExact(phrase: Phrase, title: string)
    requires |phrase| == 1 && Plain(phrase[0])
    ensures AnyMatches(Patterns(phrase), title) <==> Contains(title, Join(phrase))
  {
    PlainContainment(phrase[0], title);
    JoinOne(phrase[0]);
    assert phrase == [phrase[0]];
    assert Patterns(phrase)[0] == "%" + phrase[0] + "%";
  }

  predicate AllAsked(phrases: seq<Phrase>, title: string) {
    forall i :: 0 <= i < |phrases| ==> Asked(phrases[i], title)
  }

  lemma {:induction false} PlainPhrasesSelect(phrases: seq<Phrase>, title: string)
    requires AllPlain(phrases)
    ensures Selects(Conditions(phrases), Parameters(phrases), title) <==> AllAsked(phrases, title)
    decreases |phrases|
  {
    if phrases != [] {
      PlainPhrasesSelect(phrases[1..], title);
      SelectsStep(phrases, title);
      PatternsMeaning(phrases[0], title);
      AllAskedStep(phrases, title);
    }
  }

  lemma AllAskedStep(phrases: seq<Phrase>, title: string)
    requires phrases != []
    ensures AllAsked(phrases, title) <==> Asked(phrases[0], title) && AllAsked(phrases[1..], title)
  {
    assert forall i :: 1 <= i < |phrases| ==> phrases[i] == phrases[1..][i - 1];
  }

  /**
   * How far a search is weakened: for pieces without wildcard characters the query selects exactly the titles that
   * have every word of one piece, and of every word of several pieces all but one, in their order.
   */
  lemma AugmentSelectsIff(pieces: seq<string>, title: string)
    requires PlainPieces(pieces)
    ensures Selects(Conditions(Phrases(pieces)), Parameters(Phrases(pieces)), title) <==> AllAsked(Phrases(pieces), title)
  {
    PhrasesFromArePlain(pieces, []);
    PlainPhrasesSelect(Phrases(pieces), title);
  }

  /** Words of one piece and without wildcard characters are not weakened at all. */
  lemma {:induction false} SinglePiecesExact(phrases: seq<Phrase>, title: string)
    requires forall i :: 0 <= i < |phrases| ==> |phrases[i]| == 1 && Plain(phrases[i][0])
    ensures Selects(Conditions(phrases), Parameters(phrases), title) <==> ContainsAll(phrases, title)
    decreases |phrases|
  {
    if phrases != [] {
      SinglePiecesExact(phrases[1..], title);
      SelectsStep(phrases, title);
      SinglePieceExact(phrases[0], title);
      ContainsAllStep(phrases, title);
    }
  }

  lemma ContainsAllStep(phrases: seq<Phrase>, title: string)
    requires phrases != []
    ensures ContainsAll(phrases, title) <==> Contains(title, Join(phrases[0])) && ContainsAll(phrases[1..], title)
  {
    assert forall i :: 1 <= i < |phrases| ==> phrases[i] == phrases[1..][i - 1];
  }

  // ---------------------------------------------------------------- what the text says

  predicate StartsWith(text: string, start: string) {
    |start| <= |text| && text[..|start|] == start
  }

  lemma StartOf(start: string, rest: string)
    ensures StartsWith(start + rest, start) && (start + rest)[|start|..] == rest
  {
  }

  /** What reading a condition comes to: whether it holds, and what is left of the text and of the parameters. */
  datatype Reading = Reading(holds: bool, rest: string, parameters: seq<string>)

  /** One comparison uses up one parameter. */
  function ReadTerm(text: string, parameters: seq<string>, title: string): Option<Reading> {
    if StartsWith(text, "title LIKE ?") && parameters != [] then
      Some(Reading(Like(parameters[0], title), text[12..], parameters[1..]))
    else None
  }

  /** Comparisons with OR between them. */
  function ReadOr(text: string, parameters: seq<string>, title: string): Option<Reading>
    decreases |parameters|
  {
    var first := ReadTerm(text, parameters, title);
    if first.None? || !StartsWith(first.value.rest, " OR ") then first
    else
      var more := ReadOr(first.value.rest[4..], first.value.parameters, title);
      if more.None? then None else Some(more.value.(holds := first.value.holds || more.value.holds))
  }

  /** A comparison, or several with OR between them in parentheses. */
  function ReadFactor(text: string, parameters: seq<string>, title: string): (r: Option<Reading>)
    ensures r.Some? ==> |r.value.rest| < |text|
  {
    if StartsWith(text, "(") then
      var inner := ReadOr(text[1..], parameters, title);
      if inner.None? || !StartsWith(inner.value.rest, ")") then None
      else
        OrShortens(text[1..], parameters, title);
        Some(inner.value.(rest := inner.value.rest[1..]))
    else ReadTerm(text, parameters, title)
  }

  lemma {:induction false} OrShortens(text: string, parameters: seq<string>, title: string)
    ensures ReadOr(text, parameters, title).Some? ==> |ReadOr(text, parameters, title).value.rest| <= |text|
    decreases |parameters|
  {
    var first := ReadTerm(text, parameters, title);
    if first.Some? && StartsWith(first.value.rest, " OR ") {
      OrShortens(first.value.rest[4..], first.value.parameters, title);
    }
  }

  /** Factors with AND between them. */
  function ReadAnd(text: string, parameters: seq<string>, title: string): Option<Reading>
    decreases |text|
  {
    var first := ReadFactor(text, parameters, title);
    if first.None? || !StartsWith(first.value.rest, " AND ") then first
    else
      var more := ReadAnd(first.value.rest[5..], first.value.parameters, title);
      if more.None? then None else Some(more.value.(holds := first.value.holds && more.value.holds))
  }

  /** The query selects the title: its condition holds, with no parameter left over and only the paging behind it. */
  predicate QuerySelects(query: string, parameters: seq<string>, title: string) {
    && StartsWith(query, "SELECT rowid FROM ChannelNode WHERE ")
    && var r := ReadAnd(query[36..], parameters, title);
       r.Some? && r.value.holds && r.value.parameters == [] && StartsWith(r.value.rest, " LIMIT ")
  }

  lemma OneTerm(rest: string, parameters: seq<string>, title: string)
    requires parameters != []
    ensures ReadTerm(TERM + rest, parameters, title) == Some(Reading(Like(parameters[0], title), rest, parameters[1..]))
  {
    StartOf(TERM, rest);
  }

  lemma {:induction false} TermsRead(n: nat, rest: string, patterns: seq<string>, more: seq<string>, title: string)
    requires 0 < n == |patterns| && !StartsWith(rest, " OR ")
    ensures ReadOr(SepJoin(Repeat(TERM, n), OR) + rest, patterns + more, title) ==
            Some(Reading(AnyMatches(patterns, title), rest, more))
    decreases n
  {
    var tail := patterns[1..];
    assert patterns == [patterns[0]] + tail;
    AnyOfMore(patterns[0], tail, title);
    assert (patterns + more)[1..] == tail + more;
    if n == 1 {
      assert Repeat(TERM, 1)[1..] == [] && tail + more == more;
      OneTerm(rest, patterns + more, title);
    } else {
      var behind := SepJoin(Repeat(TERM, n - 1), OR) + rest;
      assert Repeat(TERM, n)[1..] == Repeat(TERM, n - 1);
      assert SepJoin(Repeat(TERM, n), OR) + rest == TERM + (OR + behind);
      OneTerm(OR + behind, patterns + more, title);
      StartOf(OR, behind);
      TermsRead(n - 1, rest, tail, more, title);
    }
  }

  lemma {:induction false} FactorReads(phrase: Phrase, rest: string, more: seq<string>, title: string)
    requires phrase != []
    ensures ReadFactor(Condition(phrase) + rest, Patterns(phrase) + more, title) ==
            Some(Reading(AnyMatches(Patterns(phrase), title), rest, more))
  {
    PatternsHold(phrase, title);
    if |phrase| == 1 {
      SingleReads(Patterns(phrase)[0], rest, more, title);
    } else {
      ListReads(Patterns(phrase), rest, more, title);
    }
  }

  lemma {:induction false} SingleReads(pattern: string, rest: string, more: seq<string>, title: string)
    ensures ReadFactor(TERM + rest, [pattern] + more, title) ==
            Some(Reading(AnyMatches([pattern], title), rest, more))
  {
    assert ([pattern] + more)[1..] == more && (TERM + rest)[0] == 't';
    AnyOfMore(pattern, [], title);
    assert [pattern] == [pattern] + [];
    OneTerm(rest, [pattern] + more, title);
  }

  lemma {:induction false} ListReads(patterns: seq<string>, rest: string, more: seq<string>, title: string)
    requires patterns != []
    ensures ReadFactor("(" + SepJoin(Repeat(TERM, |patterns|), OR) + ")" + rest, patterns + more, title) ==
            Some(Reading(AnyMatches(patterns, title), rest, more))
  {
    var (inner, end) := (SepJoin(Repeat(TERM, |patterns|), OR), ")" + rest);
    InParentheses(inner, rest);
    assert end[0] == ')' && !StartsWith(end, " OR ");
    TermsRead(|patterns|, end, patterns, more, title);
  }

  lemma InParentheses(inner: string, rest: string)
    ensures var text := "(" + inner + ")" + rest;
            StartsWith(text, "(") && text[1..] == inner + (")" + rest)
    ensures StartsWith(")" + rest, ")") && (")" + rest)[1..] == rest
  {
  }

  lemma {:induction false} FactorsRead(phrases: seq<Phrase>, rest: string, title: string)
    requires phrases != [] && !StartsWith(rest, " AND ")
    requires forall i :: 0 <= i < |phrases| ==> phrases[i] != []
    ensures ReadAnd(SepJoin(Conditions(phrases), AND) + rest, Parameters(phrases), title) ==
            Some(Reading(Selects(Conditions(phrases), Parameters(phrases), title), rest, []))
    decreases |phrases|
  {
    var tail := phrases[1..];
    SelectsStep(phrases, title);
    if tail == [] {
      assert Conditions(phrases) == [Condition(phrases[0])] && Parameters(phrases) == Patterns(phrases[0]) + [];
      FactorReads(phrases[0], rest, [], title);
      assert Selects(Conditions(tail), Parameters(tail), title);
      OneFactor(SepJoin(Conditions(phrases), AND) + rest, Parameters(phrases), title,
                Reading(AnyMatches(Patterns(phrases[0]), title), rest, []));
    } else {
      FactorsRead(tail, rest, title);
      FirstFactorReads(phrases, rest, title);
      MoreFactors(SepJoin(Conditions(phrases), AND) + rest, Parameters(phrases), title,
                  AnyMatches(Patterns(phrases[0]), title), SepJoin(Conditions(tail), AND) + rest, Parameters(tail));
    }
  }

  lemma OneFactor(text: string, parameters: seq<string>, title: string, r: Reading)
    requires ReadFactor(text, parameters, title) == Some(r) && !StartsWith(r.rest, " AND ")
    ensures ReadAnd(text, parameters, title) == Some(r)
  {
  }

  lemma {:induction false} MoreFactors(
      text: string, parameters: seq<string>, title: string, holds: bool, behind: string, left: seq<string>)
    requires ReadFactor(text, parameters, title) == Some(Reading(holds, AND + behind, left))
    requires StartsWith(AND + behind, " AND ") && (AND + behind)[5..] == behind
    requires ReadAnd(behind, left, title).Some?
    ensures var more := ReadAnd(behind, left, title).value;
            ReadAnd(text, parameters, title) == Some(more.(holds := holds && more.holds))
  {
  }

  lemma {:induction false} FirstFactorReads(phrases: seq<Phrase>, rest: string, title: string)
    requires |phrases| > 1 && phrases[0] != []
    ensures var (text, behind) := (SepJoin(Conditions(phrases), AND) + rest, SepJoin(Conditions(phrases[1..]), AND) + rest);
            && ReadFactor(text, Parameters(phrases), title) ==
               Some(Reading(AnyMatches(Patterns(phrases[0]), title), AND + behind, Parameters(phrases[1..])))
            && StartsWith(AND + behind, " AND ") && (AND + behind)[5..] == behind
  {
    var tail := phrases[1..];
    var behind := SepJoin(Conditions(tail), AND) + rest;
    assert Conditions(phrases)[1..] == Conditions(tail) && Conditions(tail) != [];
    Chained(Condition(phrases[0]), SepJoin(Conditions(tail), AND), rest);
    FactorReads(phrases[0], AND + behind, Parameters(tail), title);
    StartOf(AND, behind);
  }

  lemma Chained(first: string, more: string, rest: string)
    ensures first + AND + more + rest == first + (AND + (more + rest))
  {
  }

  /** The text of a query, read as SQL, says with its parameters what is proved of its conditions. */
  lemma {:induction false} TextSelectsIff(pieces: seq<string>, limit: nat, offset: nat, title: string)
    requires pieces != [] && Augmentation(pieces, limit, offset).Ok?
    ensures var a := Augmentation(pieces, limit, offset).value;
            QuerySelects(a.query, a.parameters, title) <==>
            Selects(Conditions(Phrases(pieces)), Parameters(Phrases(pieces)), title)
  {
    PhrasesFlatten(pieces);
    PagingStarts(limit, offset);
    FactorsRead(Phrases(pieces), Paging(limit, offset), title);
    QueryReads(SepJoin(Conditions(Phrases(pieces)), AND), limit, offset);
  }

  lemma PagingStarts(limit: nat, offset: nat)
    ensures StartsWith(Paging(limit, offset), " LIMIT ") && !StartsWith(Paging(limit, offset), " AND ")
  {
    var behind := DecimalText(limit) + " OFFSET " + DecimalText(offset);
    assert Paging(limit, offset) == " LIMIT " + behind;
    assert Paging(limit, offset)[1] == 'L';
  }

  lemma QueryReads(conjunction: string, limit: nat, offset: nat)
    ensures var query := QueryText(conjunction, limit, offset);
            StartsWith(query, "SELECT rowid FROM ChannelNode WHERE ") && query[36..] == conjunction + Paging(limit, offset)
  {
    var paging := Paging(limit, offset);
    assert SELECT + conjunction + paging == SELECT + (conjunction + paging);
    StartOf(SELECT, conjunction + paging);
  }

  /**
   * What a search finds, from its pieces to its text: for pieces without wildcard characters, the titles that have
   * every word of one piece, and of every word of several pieces all but one, in their order.
   */
  lemma SearchFindsIff(pieces: seq<string>, limit: nat, offset: nat, title: string)
    requires PlainPieces(pieces) && pieces != [] && Augmentation(pieces, limit, offset).Ok?
    ensures var a := Augmentation(pieces, limit, offset).value;
            QuerySelects(a.query, a.parameters, title) <==> AllAsked(Phrases(pieces), title)
  {
    TextSelectsIff(pieces, limit, offset, title);
    AugmentSelectsIff(pieces, title);
  }

  /** A search without pieces finds every title. */
  lemma EmptySearch(limit: nat, offset: nat, title: string)
    ensures Augmentation([], limit, offset) == Ok(Augmented("title LIKE ?", ["%"]))
    ensures ReadAnd("title LIKE ?", ["%"], title) == Some(Reading(true, "", []))
  {
    var (text, parameters) := (TERM, ["%"]);
    PercentMatchesAll(title);
    OneTerm("", parameters, title);
    assert text + "" == text && text[0] == 't' && parameters[1..] == [];
    OneFactor(text, parameters, title, Reading(true, "", []));
  }

  /** The limit comes first, and both in decimals. */
  lemma PagingIs()
    ensures Paging(25, 7) == " LIMIT 25 OFFSET 7"
  {
    assert DecimalText(25) == "25" by { assert DecimalText(2) == "2"; }
    assert DecimalText(7) == "7";
  }
}
