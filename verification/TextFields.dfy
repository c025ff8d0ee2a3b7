/**
 * Numbers and lists as text, by their ASCII codes: Python's decimal printer, its
 * int() and split(), the health list that follows a metadata chunk, and the
 * "files" option of a download configuration.
 */
module TextFields {
  import opened Binary
  import opened Outcomes

  const SEMICOLON: Byte := 59
  const COMMA: Byte := 44
  const MINUS: Byte := 45
  const PLUS: Byte := 43
  const UNDERSCORE: Byte := 95

  // ---------------------------------------------------------------- decimal numbers

  predicate IsDigit(b: Byte) { 48 <= b <= 57 }

  predicate IsSpace(b: Byte) { b == 32 || 9 <= b <= 13 }

  function Digits(n: nat): (s: Bytes)
    ensures s != [] && forall i :: 0 <= i < |s| ==> IsDigit(s[i])
  {
    if n < 10 then [(48 + n) as Byte] else Digits(n / 10) + [(48 + n % 10) as Byte]
  }

  /** "%d", and str() of an integer. */
  function Decimal(i: int): (s: Bytes)
    ensures s != [] && forall k :: 0 <= k < |s| ==> IsDigit(s[k]) || s[k] == MINUS
  {
    if i < 0 then [MINUS] + Digits(-i) else Digits(i)
  }

  /** One or more digits, with single underscores allowed between them. */
  function ParseDigits(s: Bytes): Option<nat> {
    if s == [] || !IsDigit(s[|s| - 1]) then None
    else
      var digit := s[|s| - 1] as int - 48;
      var front := s[..|s| - 1];
      if front == [] then Some(digit)
      else
        var high := ParseDigits(if front[|front| - 1] == UNDERSCORE then front[..|front| - 1] else front);
        if high.None? then None else Some(10 * high.value + digit)
  }

  function Strip(s: Bytes): Bytes {
    if s != [] && IsSpace(s[0]) then Strip(s[1..])
    else if s != [] && IsSpace(s[|s| - 1]) then Strip(s[..|s| - 1])
    else s
  }

  /** int(): surrounding white space, an optional sign, digits; None stands for ValueError. */
  function ParseInt(text: Bytes): Option<int> {
    var s := Strip(text);
    if s == [] then None
    else if s[0] == MINUS then WithSign(-1, ParseDigits(s[1..]))
    else if s[0] == PLUS then WithSign(1, ParseDigits(s[1..]))
    else WithSign(1, ParseDigits(s))
  }

  function WithSign(sign: int, n: Option<nat>): Option<int> {
    if n.None? then None else Some(sign * n.value)
  }

  lemma {:induction false} ParsePrintedDigits(n: nat)
    ensures ParseDigits(Digits(n)) == Some(n)
  {
    if n >= 10 {
      ParsePrintedDigits(n / 10);
      var s := Digits(n);
      assert s[..|s| - 1] == Digits(n / 10);
    }
  }

  lemma ParsePrintedInt(i: int)
    ensures ParseInt(Decimal(i)) == Some(i)
  {
    ParsePrintedDigits(if i < 0 then -i else i);
    var s := Decimal(i);
    assert IsDigit(s[|s| - 1]);
    assert Strip(s) == s;
    if i < 0 {
      assert s[1..] == Digits(-i);
    }
  }

  // ---------------------------------------------------------------- split and join

  /** split(): always at least one part. */
  function Split(s: Bytes, sep: Byte): (parts: seq<Bytes>)
    ensures parts != []
  {
    if s == [] then [[]]
    else
      var rest := Split(s[1..], sep);
      if s[0] == sep then [[]] + rest else [[s[0]] + rest[0]] + rest[1..]
  }

  /** Every item followed by the separator. */
  function Terminated(items: seq<Bytes>, sep: Byte): Bytes {
    if items == [] then [] else items[0] + [sep] + Terminated(items[1..], sep)
  }

  lemma {:induction false} SplitHead(item: Bytes, sep: Byte, rest: Bytes)
    requires sep !in item
    ensures Split(item + [sep] + rest, sep) == [item] + Split(rest, sep)
  {
    var s := item + [sep] + rest;
    if item == [] {
      assert s[1..] == rest;
    } else {
      assert s[1..] == item[1..] + [sep] + rest;
      SplitHead(item[1..], sep, rest);
      assert item == [item[0]] + item[1..];
    }
  }

  /** Splitting gives back the terminated items and one empty part after the last separator. */
  lemma {:induction false} SplitTerminated(items: seq<Bytes>, sep: Byte)
    requires forall i :: 0 <= i < |items| ==> sep !in items[i]
    ensures Split(Terminated(items, sep), sep) == items + [[]]
  {
    if items != [] {
      SplitHead(items[0], sep, Terminated(items[1..], sep));
      SplitTerminated(items[1..], sep);
      assert items + [[]] == [items[0]] + (items[1..] + [[]]);
    }
  }

  lemma {:induction false} SplitWhole(item: Bytes, sep: Byte)
    requires sep !in item
    ensures Split(item, sep) == [item]
  {
    if item != [] {
      SplitWhole(item[1..], sep);
      assert item == [item[0]] + item[1..];
    }
  }

  // ---------------------------------------------------------------- the health list

  /** A TorrentState row's seeders, leechers and last_check, missing values read as 0. */
  datatype Triple = Triple(seeders: int, leechers: int, lastCheck: int) {
    predicate NonNegative() { seeders >= 0 && leechers >= 0 && lastCheck >= 0 }
  }

  const NOTHING := Triple(0, 0, 0)

  /** The printed item without its final semicolon; None is an entry that has no health row. */
  function HealthItem(h: Option<Triple>): (s: Bytes)
    ensures SEMICOLON !in s
  {
    if h.None? || h.value == NOTHING then []
    else Decimal(h.value.seeders) + [COMMA] + Decimal(h.value.leechers) + [COMMA] + Decimal(h.value.lastCheck)
  }

  function SerializedHealth(h: Option<Triple>): Bytes {
    HealthItem(h) + [SEMICOLON]
  }

  function ParseHealthItem(item: Bytes): (t: Triple)
    ensures t.NonNegative()
  {
    if item == [] then NOTHING
    else
      var parts := Split(item, COMMA);
      if |parts| < 3 then NOTHING
      else
        var (seeders, leechers, lastCheck) := (ParseInt(parts[0]), ParseInt(parts[1]), ParseInt(parts[2]));
        if seeders.None? || leechers.None? || lastCheck.None? then NOTHING
        else
          var t := Triple(seeders.value, leechers.value, lastCheck.value);
          if t.NonNegative() then t else NOTHING
  }

  /** HealthItemsPayload.unpack without its length prefix: what follows the last semicolon is dropped. */
  function UnpackHealth(text: Bytes): seq<Triple> {
    var items := Split(text, SEMICOLON);
    seq(|items| - 1, i requires 0 <= i < |items| - 1 => ParseHealthItem(items[i]))
  }

  function SerializedHealths(hs: seq<Option<Triple>>): (xs: seq<Bytes>)
    ensures |xs| == |hs|
    ensures forall i :: 0 <= i < |hs| ==> xs[i] == SerializedHealth(hs[i])
  {
    seq(|hs|, i requires 0 <= i < |hs| => SerializedHealth(hs[i]))
  }

  function HealthText(hs: seq<Option<Triple>>): Bytes {
    Concat(SerializedHealths(hs))
  }

  /** What the receiver learns of an entry's health. */
  function Received(h: Option<Triple>): Triple {
    if h.Some? && h.value.NonNegative() then h.value else NOTHING
  }

  /** Non-negative triples survive printing and parsing; any other health is received as all zeros. */
  lemma ParsePrintedHealth(h: Option<Triple>)
    ensures ParseHealthItem(HealthItem(h)) == Received(h)
  {
    if h.Some? && h.value != NOTHING {
      var (a, b, c) := (Decimal(h.value.seeders), Decimal(h.value.leechers), Decimal(h.value.lastCheck));
      assert HealthItem(h) == a + [COMMA] + (b + [COMMA] + c);
      SplitHead(a, COMMA, b + [COMMA] + c);
      SplitHead(b, COMMA, c);
      SplitWhole(c, COMMA);
      ParsePrintedInt(h.value.seeders);
      ParsePrintedInt(h.value.leechers);
      ParsePrintedInt(h.value.lastCheck);
    }
  }

  function HealthItems(hs: seq<Option<Triple>>): (items: seq<Bytes>)
    ensures |items| == |hs|
    ensures forall i :: 0 <= i < |hs| ==> items[i] == HealthItem(hs[i])
  {
    seq(|hs|, i requires 0 <= i < |hs| => HealthItem(hs[i]))
  }

  function ReceivedAll(hs: seq<Option<Triple>>): (ts: seq<Triple>)
    ensures |ts| == |hs|
    ensures forall i :: 0 <= i < |hs| ==> ts[i] == Received(hs[i])
  {
    seq(|hs|, i requires 0 <= i < |hs| => Received(hs[i]))
  }

  lemma {:induction false} HealthTextTerminates(hs: seq<Option<Triple>>)
    ensures HealthText(hs) == Terminated(HealthItems(hs), SEMICOLON)
  {
    if hs != [] {
      HealthTextTerminates(hs[1..]);
      assert SerializedHealths(hs)[1..] == SerializedHealths(hs[1..]);
      assert HealthItems(hs)[1..] == HealthItems(hs[1..]);
    }
  }

  /** The concatenated health text unpacks to the health of every entry, in order. */
  lemma UnpackPrintedHealth(hs: seq<Option<Triple>>)
    ensures UnpackHealth(HealthText(hs)) == ReceivedAll(hs)
  {
    var items := HealthItems(hs);
    HealthTextTerminates(hs);
    SplitTerminated(items, SEMICOLON);
    forall i | 0 <= i < |hs|
      ensures ParseHealthItem((items + [[]])[i]) == Received(hs[i])
    {
      ParsePrintedHealth(hs[i]);
    }
  }

  /** The text of an entry with 12 seeders, 3 leechers and a check at 40 is "12,3,40;", and of one without health ";". */
  lemma HealthTextIs()
    ensures SerializedHealth(Some(Triple(12, 3, 40))) == [49, 50, 44, 51, 44, 52, 48, 59]
    ensures SerializedHealth(None) == [59]
  {
    DigitsOfTwo(12);
    DigitsOfTwo(40);
  }

  lemma DigitsOfTwo(n: nat)
    requires 10 <= n < 100
    ensures Decimal(n) == [(48 + n / 10) as Byte, (48 + n % 10) as Byte]
  {
    assert Digits(n / 10) == [(48 + n / 10) as Byte];
  }

  /** Signs, surrounding spaces and single underscores are read; a sign alone, a double underscore or a letter is not. */
  lemma ParseIntReads()
    ensures ParseInt([32, 45, 55, 10]) == Some(-7) && ParseInt([43, 49, 95, 48]) == Some(10)
    ensures ParseInt([45]) == None && ParseInt([49, 95, 95, 48]) == None && ParseInt([49, 97]) == None
  {
    assert Strip([32, 45, 55, 10]) == Strip([45, 55, 10]) by { assert [32, 45, 55, 10][1..] == [45, 55, 10]; }
  }

  // ---------------------------------------------------------------- the selected files of a download

  /** set_selected_files: the new value of the "files" option, None when the option is removed. */
  function SetSelectedFiles(indexes: Option<seq<int>>): Option<Bytes> {
    if indexes.None? then None else Some(Joined(indexes.value, COMMA) + [COMMA])
  }

  /** sep.join(str(i) for i in indexes) */
  function Joined(indexes: seq<int>, sep: Byte): Bytes {
    if indexes == [] then []
    else if |indexes| == 1 then Decimal(indexes[0])
    else Decimal(indexes[0]) + [sep] + Joined(indexes[1..], sep)
  }

  datatype ConfigError = ValueError

  /** [int(i) for i in parts if i] */
  function ParseIndexes(parts: seq<Bytes>): Result<seq<int>, ConfigError> {
    if parts == [] then Ok([])
    else
      var rest := ParseIndexes(parts[1..]);
      if parts[0] == [] then rest
      else
        var i := ParseInt(parts[0]);
        if i.None? then Err(ValueError)
        else if rest.Err? then rest
        else Ok([i.value] + rest.value)
  }

  function GetSelectedFiles(option: Option<Bytes>): Result<Option<seq<int>>, ConfigError> {
    if option.None? || option.value == [] then Ok(None)
    else
      var r := ParseIndexes(Split(option.value, COMMA));
      if r.Err? then Err(r.error) else Ok(Some(r.value))
  }

  lemma NoIndexes()
    ensures ParseIndexes([[]]) == Ok([])
    ensures ParseIndexes([[]] + [[]]) == Ok([])
  {
    var blank: seq<Bytes> := [[]];
    assert blank[1..] == [];
    assert (blank + blank)[1..] == blank;
  }

  lemma {:induction false} ParseJoined(indexes: seq<int>)
    ensures ParseIndexes(Split(Joined(indexes, COMMA) + [COMMA], COMMA)) == Ok(indexes)
  {
    if indexes == [] {
      assert Joined(indexes, COMMA) + [COMMA] == [] + [COMMA] + [];
      SplitHead([], COMMA, []);
      NoIndexes();
    } else {
      var text := Joined(indexes, COMMA) + [COMMA];
      var head := Decimal(indexes[0]);
      ParsePrintedInt(indexes[0]);
      if |indexes| == 1 {
        assert text == head + [COMMA] + [];
        SplitHead(head, COMMA, []);
        NoIndexes();
        assert [indexes[0]] + [] == indexes;
      } else {
        var rest := Joined(indexes[1..], COMMA) + [COMMA];
        assert text == head + [COMMA] + rest;
        SplitHead(head, COMMA, rest);
        assert Split(text, COMMA)[1..] == Split(rest, COMMA);
        ParseJoined(indexes[1..]);
        assert [indexes[0]] + indexes[1..] == indexes;
      }
    }
  }

  /** Any selection, the empty one included, is read back as it was set, and no list is mistaken for None. */
  lemma SelectedFilesRoundTrip(indexes: Option<seq<int>>)
    ensures GetSelectedFiles(SetSelectedFiles(indexes)) == Ok(indexes)
  {
    if indexes.Some? {
      ParseJoined(indexes.value);
    }
  }
}
