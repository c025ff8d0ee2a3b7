/** SQL LIKE on strings: `%` matches any run of characters, `_` any one, letters match in either case. */
module LikePatterns {

  /** LIKE folds the case of ASCII letters only. */
  function Fold(c: char): char {
    if 'A' <= c <= 'Z' then (c as int + 32) as char else c
  }

  predicate Like(pattern: string, text: string)
    decreases |pattern| + |text|
  {
    if pattern == "" then text == ""
    else if pattern[0] == '%' then Like(pattern[1..], text) || (text != "" && Like(pattern, text[1..]))
    else text != "" && (pattern[0] == '_' || Fold(pattern[0]) == Fold(text[0])) && Like(pattern[1..], text[1..])
  }

  /** Equal up to the case of ASCII letters. */
  predicate Same(a: string, b: string) {
    |a| == |b| && forall i :: 0 <= i < |a| ==> Fold(a[i]) == Fold(b[i])
  }

  /** The word stands in the text from position `i` on. */
  predicate StandsAt(text: string, word: string, i: nat) {
    i + |word| <= |text| && Same(word, text[i..i + |word|])
  }

  predicate Contains(text: string, word: string) {
    exists i: nat :: i <= |text| && StandsAt(text, word, i)
  }

  predicate Plain(word: string) {
    '%' !in word && '_' !in word
  }

  lemma {:induction false} PercentMatchesAll(text: string)
    ensures Like("%", text)
    decreases |text|
  {
    if text == "" {
      assert Like("%"[1..], text);
    } else {
      PercentMatchesAll(text[1..]);
    }
  }

  /** `%` skips any beginning. */
  lemma {:induction false} PercentSkips(pattern: string, skipped: string, text: string)
    requires Like(pattern, text)
    ensures Like("%" + pattern, skipped + text)
    decreases |skipped|
  {
    var p := "%" + pattern;
    assert p[1..] == pattern;
    if skipped == "" {
      assert skipped + text == text;
    } else {
      PercentSkips(pattern, skipped[1..], text);
      assert (skipped + text)[1..] == skipped[1..] + text;
    }
  }

  /** Text used as a pattern matches itself, even where it happens to contain wildcard characters. */
  lemma {:induction false} LiteralMatches(word: string, copy: string, pattern: string, text: string)
    requires Same(word, copy) && Like(pattern, text)
    ensures Like(word + pattern, copy + text)
    decreases |word|
  {
    if word == "" {
      assert word + pattern == pattern && copy + text == text;
    } else {
      LiteralMatches(word[1..], copy[1..], pattern, text);
      var (p, t) := (word + pattern, copy + text);
      assert p[1..] == word[1..] + pattern && t[1..] == copy[1..] + text;
      if p[0] == '%' {
        PercentSkips(p[1..], [t[0]], t[1..]);
        assert ['%'] + p[1..] == p && "%" == ['%'] && [t[0]] + t[1..] == t;
      }
    }
  }

  /** A second `%` at the end changes nothing. */
  lemma {:induction false} TrailingPercent(pattern: string, text: string)
    requires Like(pattern + "%%", text)
    ensures Like(pattern + "%", text)
    decreases |pattern| + |text|
  {
    var (p, q) := (pattern + "%%", pattern + "%");
    if pattern == "" {
      assert q == "%";
      PercentMatchesAll(text);
    } else {
      assert p[1..] == pattern[1..] + "%%" && q[1..] == pattern[1..] + "%";
      if pattern[0] == '%' {
        if Like(p[1..], text) {
          TrailingPercent(pattern[1..], text);
        } else {
          TrailingPercent(pattern, text[1..]);
        }
      } else {
        TrailingPercent(pattern[1..], text[1..]);
      }
    }
  }

  /** What a leading `%` means: the rest of the pattern matches some end of the text. */
  lemma {:induction false} PercentMeaning(pattern: string, text: string)
    ensures Like("%" + pattern, text) <==> exists i: nat :: i <= |text| && Like(pattern, text[i..])
    decreases |text|
  {
    var p := "%" + pattern;
    assert p[1..] == pattern;
    assert text[0..] == text;
    if Like(p, text) {
      if !Like(pattern, text) {
        PercentMeaning(pattern, text[1..]);
        var i: nat :| i <= |text[1..]| && Like(pattern, text[1..][i..]);
        assert text[1..][i..] == text[i + 1..];
      }
    }
    forall i: nat | i <= |text| && Like(pattern, text[i..])
      ensures Like(p, text)
    {
      PercentSkips(pattern, text[..i], text[i..]);
      assert text[..i] + text[i..] == text;
    }
  }

  lemma {:induction false} PlainMeaning(word: string, pattern: string, text: string)
    requires Plain(word)
    ensures Like(word + pattern, text) <==>
            |word| <= |text| && Same(word, text[..|word|]) && Like(pattern, text[|word|..])
    decreases |word|
  {
    if word == "" {
      assert word + pattern == pattern && text[0..] == text;
    } else if text != "" {
      assert (word + pattern)[1..] == word[1..] + pattern;
      PlainMeaning(word[1..], pattern, text[1..]);
      if |word| <= |text| {
        assert text[1..][|word| - 1..] == text[|word|..];
        assert text[..|word|][1..] == text[1..][..|word| - 1];
        assert Same(word, text[..|word|]) <==>
               Fold(word[0]) == Fold(text[0]) && Same(word[1..], text[1..][..|word| - 1]) by {
          assert forall i :: 1 <= i < |word| ==> word[i] == word[1..][i - 1] && text[i] == text[1..][i - 1];
        }
      }
    }
  }

  /** For a word without wildcard characters, `%word%` asks exactly whether the text contains the word. */
  lemma PlainContainment(word: string, text: string)
    requires Plain(word)
    ensures Like("%" + word + "%", text) <==> Contains(text, word)
  {
    assert "%" + word + "%" == "%" + (word + "%");
    PercentMeaning(word + "%", text);
    forall i: nat | i <= |text|
      ensures Like(word + "%", text[i..]) <==> StandsAt(text, word, i)
    {
      PlainMeaning(word, "%", text[i..]);
      if i + |word| <= |text| {
        PercentMatchesAll(text[i..][|word|..]);
        assert text[i..][..|word|] == text[i..i + |word|];
      }
    }
  }

  /** Letters match in either case, other characters only themselves, and an underscore any one character. */
  lemma LikeReads()
    ensures Like("aB_", "Abx") && !Like("a_", "a") && !Like("[", "{")
  {
  }

  /** The word stands in the text, at this position or behind it. */
  predicate Behind(text: string, word: string, lo: nat) {
    exists q: nat :: q <= |text| && lo <= q && StandsAt(text, word, q)
  }

  /** The two words stand in the text, the second somewhere behind the first. */
  predicate StandInOrder(text: string, a: string, b: string) {
    exists p: nat :: p <= |text| && StandsAt(text, a, p) && Behind(text, b, p + |a|)
  }

  lemma ContainsBehind(text: string, word: string, lo: nat)
    requires lo <= |text|
    ensures Contains(text[lo..], word) <==> Behind(text, word, lo)
  {
    forall i: nat | i <= |text| - lo
      ensures StandsAt(text[lo..], word, i) <==> StandsAt(text, word, lo + i)
    {
      if lo + i + |word| <= |text| {
        assert text[lo..][i..i + |word|] == text[lo + i..lo + i + |word|];
      }
    }
    if Behind(text, word, lo) {
      var q: nat :| q <= |text| && lo <= q && StandsAt(text, word, q);
      assert StandsAt(text[lo..], word, q - lo);
    }
  }

  lemma {:induction false} WordThenGap(a: string, b: string, text: string, i: nat)
    requires Plain(a) && Plain(b) && i <= |text|
    ensures Like(a + ("%" + b + "%"), text[i..]) <==> StandsAt(text, a, i) && Behind(text, b, i + |a|)
  {
    PlainMeaning(a, "%" + b + "%", text[i..]);
    if i + |a| <= |text| {
      Within(text, i, |a|);
      PlainContainment(b, text[i + |a|..]);
      ContainsBehind(text, b, i + |a|);
    }
  }

  lemma Within(text: string, i: nat, n: nat)
    requires i + n <= |text|
    ensures text[i..][n..] == text[i + n..] && text[i..][..n] == text[i..i + n]
  {
  }

  /** For words without wildcard characters, `%a%b%` asks exactly whether they stand in the text in this order. */
  lemma {:induction false} GapMeaning(a: string, b: string, text: string)
    requires Plain(a) && Plain(b)
    ensures Like("%" + (a + ("%" + b + "%")), text) <==> StandInOrder(text, a, b)
  {
    PercentMeaning(a + ("%" + b + "%"), text);
    forall i: nat | i <= |text|
      ensures Like(a + ("%" + b + "%"), text[i..]) <==> StandsAt(text, a, i) && Behind(text, b, i + |a|)
    {
      WordThenGap(a, b, text, i);
    }
  }

  lemma NothingInFront(text: string, b: string)
    ensures StandInOrder(text, "", b) <==> Contains(text, b)
  {
    if Contains(text, b) {
      assert StandsAt(text, "", 0) && Behind(text, b, 0 + |""|);
    }
    if StandInOrder(text, "", b) {
      var p: nat :| p <= |text| && StandsAt(text, "", p) && Behind(text, b, p + |""|);
    }
  }

  lemma NothingBehind(text: string, a: string)
    ensures StandInOrder(text, a, "") <==> Contains(text, a)
  {
    if Contains(text, a) {
      var p: nat :| p <= |text| && StandsAt(text, a, p);
      assert StandsAt(text, "", p + |a|) && Behind(text, "", p + |a|);
    }
  }
}
