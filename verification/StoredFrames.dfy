/**
 * Compressors that obey the frame laws, with and without a dictionary, and results that are never sent to their
 * end, that start over once, or that arrive in part.
 */
module StoredFrames {
  import opened Binary
  import opened Outcomes
  import opened PayloadCodec
  import opened TextFields
  import opened TorrentRows
  import opened ChunkSender
  import opened ChunkReceiver
  import opened GossipRoundTrip

  /** Every byte behind a 1; four zero bytes end the frame. */
  function Stuff(x: Bytes): (r: Bytes)
    ensures |r| == 2 * |x|
  {
    if x == [] then [] else [1, x[0]] + Stuff(x[1..])
  }

  function Unstuff(data: Bytes): Option<(Bytes, Bytes)> {
    if |data| < 2 then None
    else if data[0] == 0 then
      if |data| < 4 then None else Some(([], data[4..]))
    else
      var rest := Unstuff(data[2..]);
      if rest.None? then None else Some(([data[1]] + rest.value.0, rest.value.1))
  }

  function Stored(): Compressor {
    Compressor([], (_, x) => Stuff(x), Zeros(4), data => Unstuff(data))
  }

  lemma {:induction false} UnstuffStuffed(x: Bytes, rest: Bytes)
    ensures Unstuff(Stuff(x) + Zeros(4) + rest) == Some((x, rest))
  {
    var data := Stuff(x) + Zeros(4) + rest;
    if x == [] {
      assert data[4..] == rest;
    } else {
      assert data[2..] == Stuff(x[1..]) + Zeros(4) + rest;
      UnstuffStuffed(x[1..], rest);
      assert x == [x[0]] + x[1..];
    }
  }

  lemma {:induction false} StuffConcat(a: Bytes, b: Bytes)
    ensures Stuff(a + b) == Stuff(a) + Stuff(b)
  {
    if a == [] {
      assert a + b == b;
    } else {
      assert (a + b)[1..] == a[1..] + b;
      StuffConcat(a[1..], b);
    }
  }

  lemma {:induction false} StoredBlocks(xs: seq<Bytes>)
    ensures Blocks(Stored(), xs) == Stuff(Concat(xs))
  {
    if xs != [] {
      var (init, last) := (xs[..|xs| - 1], xs[|xs| - 1]);
      StoredBlocks(init);
      assert xs == init + [last];
      ConcatAppend(init, last);
      StuffConcat(Concat(init), last);
    }
  }

  /** The laws asked of a compressor can be met, by one that needs no dictionary. */
  lemma StoredObeysLaws()
    ensures FrameLaws(Stored()) && HistoryFree(Stored())
  {
    var z := Stored();
    forall xs: seq<Bytes>, rest: Bytes
      ensures z.decompress(Frame(z, xs) + rest) == Some((Concat(xs), rest))
    {
      StoredBlocks(xs);
      UnstuffStuffed(Concat(xs), rest);
      assert Frame(z, xs) == Stuff(Concat(xs)) + Zeros(4);
    }
  }

  /**
   * Two entries, the second too large for a chunk: the first entry of the second chunk is not added,
   * although the documentation says that the first entry always is, and sending starts over from index 1 for ever.
   */
  lemma SecondEntryTooLarge()
    ensures var c := Chunker(Stored(), 20, false);
            var es := [Entry([], []), Entry(Zeros(10), [])];
            && c.End(es, 1, 1) == 1
            && c.Next(es, 1) == 1
            && !Terminates(c, es)
  {
    var c := Chunker(Stored(), 20, false);
    var es := [Entry([], []), Entry(Zeros(10), [])];
    StoredObeysLaws();
    assert c.Size(es, 1, 2) == c.Size(es, 1, 1) + c.Added(es, 1, 1);
    assert c.Added(es, 1, 1) == 20;
    assert !c.FitsAlone(es, 1);
    TerminatesIff(c, es);
  }

  // ---------------------------------------------------------------- a compressor with a dictionary

  /** The data `p` is short wherever it stands, and the data `l` right behind a first block of `p`. */
  function DictionaryBlock(p: Bytes, l: Bytes, h: seq<Bytes>, x: Bytes): Bytes {
    if x == p then [4, 4] else if h == [p] && x == l then [3, 3] else Stuff(x)
  }

  function Prefixed(x: Bytes, decoded: Option<(Bytes, Bytes)>): Option<(Bytes, Bytes)> {
    if decoded.None? then None else Some((x + decoded.value.0, decoded.value.1))
  }

  function Decode(p: Bytes, l: Bytes, data: Bytes): Option<(Bytes, Bytes)> {
    if |data| < 2 then None
    else if data[0] == 0 then
      if |data| < 4 then None else Some(([], data[4..]))
    else
      Prefixed(if data[0] == 3 then l else if data[0] == 4 then p else [data[1]], Decode(p, l, data[2..]))
  }

  function Dictionary(p: Bytes, l: Bytes): Compressor {
    Compressor([], (h, x) => DictionaryBlock(p, l, h, x), Zeros(4), data => Decode(p, l, data))
  }

  lemma PrefixedNothing(decoded: Option<(Bytes, Bytes)>)
    ensures Prefixed([], decoded) == decoded
  {
    if decoded.Some? {
      assert [] + decoded.value.0 == decoded.value.0;
    }
  }

  lemma PrefixedTwice(a: Bytes, b: Bytes, decoded: Option<(Bytes, Bytes)>)
    ensures Prefixed(a, Prefixed(b, decoded)) == Prefixed(a + b, decoded)
  {
    if decoded.Some? {
      assert a + (b + decoded.value.0) == (a + b) + decoded.value.0;
    }
  }

  lemma DecodeOne(p: Bytes, l: Bytes, b: Byte, rest: Bytes)
    ensures Decode(p, l, [1, b] + rest) == Prefixed([b], Decode(p, l, rest))
  {
    assert ([1, b] + rest)[2..] == rest;
  }

  lemma {:induction false} DecodeStuffed(p: Bytes, l: Bytes, x: Bytes, tail: Bytes)
    ensures Decode(p, l, Stuff(x) + tail) == Prefixed(x, Decode(p, l, tail))
  {
    if x == [] {
      assert Stuff(x) + tail == tail;
      PrefixedNothing(Decode(p, l, tail));
    } else {
      assert Stuff(x) + tail == [1, x[0]] + (Stuff(x[1..]) + tail);
      DecodeOne(p, l, x[0], Stuff(x[1..]) + tail);
      DecodeStuffed(p, l, x[1..], tail);
      PrefixedTwice([x[0]], x[1..], Decode(p, l, tail));
      assert x == [x[0]] + x[1..];
    }
  }

  lemma DecodeBlock(p: Bytes, l: Bytes, h: seq<Bytes>, x: Bytes, tail: Bytes)
    ensures Decode(p, l, DictionaryBlock(p, l, h, x) + tail) == Prefixed(x, Decode(p, l, tail))
  {
    var block := DictionaryBlock(p, l, h, x);
    if x == p || (h == [p] && x == l) {
      assert (block + tail)[2..] == tail;
    } else {
      DecodeStuffed(p, l, x, tail);
    }
  }

  lemma {:induction false} DecodeBlocks(p: Bytes, l: Bytes, xs: seq<Bytes>, tail: Bytes)
    ensures Decode(p, l, Blocks(Dictionary(p, l), xs) + tail) == Prefixed(Concat(xs), Decode(p, l, tail))
    decreases |xs|
  {
    var z := Dictionary(p, l);
    if xs == [] {
      assert Blocks(z, xs) + tail == tail;
      PrefixedNothing(Decode(p, l, tail));
    } else {
      var (front, x) := (xs[..|xs| - 1], xs[|xs| - 1]);
      var block := DictionaryBlock(p, l, front, x);
      assert Blocks(z, xs) + tail == Blocks(z, front) + (block + tail);
      DecodeBlocks(p, l, front, block + tail);
      DecodeBlock(p, l, front, x, tail);
      assert xs == front + [x];
      ConcatAppend(front, x);
      PrefixedTwice(Concat(front), x, Decode(p, l, tail));
    }
  }

  lemma DecodeEnd(p: Bytes, l: Bytes, rest: Bytes)
    ensures Decode(p, l, Zeros(4) + rest) == Some(([], rest))
  {
    assert (Zeros(4) + rest)[4..] == rest;
  }

  lemma FrameIsBlocks(p: Bytes, l: Bytes, xs: seq<Bytes>, rest: Bytes)
    ensures Frame(Dictionary(p, l), xs) + rest == Blocks(Dictionary(p, l), xs) + (Zeros(4) + rest)
  {
  }

  lemma DictionaryObeysLaws(p: Bytes, l: Bytes)
    ensures FrameLaws(Dictionary(p, l))
  {
    var z := Dictionary(p, l);
    forall xs: seq<Bytes>, rest: Bytes
      ensures z.decompress(Frame(z, xs) + rest) == Some((Concat(xs), rest))
    {
      DecodeBlocks(p, l, xs, Zeros(4) + rest);
      DecodeEnd(p, l, rest);
      FrameIsBlocks(p, l, xs, rest);
      assert Concat(xs) + [] == Concat(xs);
    }
  }

  /** Entries for `p`, `p` and `l`, whose health texts take one byte each. */
  predicate ThreeEntries(p: Bytes, l: Bytes, es: seq<Entry>) {
    && |es| == 3 && es[0].data == p && es[1].data == p && es[2].data == l
    && forall i :: 0 <= i < 3 ==> |es[i].health| == 1
  }

  /** Room for two short entries and their health. */
  function RoomForTwo(p: Bytes, l: Bytes): Chunker {
    Chunker(Dictionary(p, l), 14, true)
  }

  lemma ThreeSizes(p: Bytes, l: Bytes, es: seq<Entry>)
    requires ThreeEntries(p, l, es) && p != l && |l| > 2
    ensures var c := RoomForTwo(p, l);
            && c.Size(es, 0, 1) == 11 && c.Size(es, 0, 2) == 14 && c.Size(es, 0, 3) > 14
            && c.Size(es, 1, 2) == 11 && c.Size(es, 1, 3) == 14 && c.Size(es, 2, 3) > 14
  {
    var c := RoomForTwo(p, l);
    assert Datas(es[0..2]) == [p, p] && Datas(es[1..2]) == [p] && Datas(es[2..2]) == [];
    assert c.Size(es, 0, 2) == c.Size(es, 0, 1) + c.Added(es, 0, 1);
    assert c.Size(es, 0, 3) == c.Size(es, 0, 2) + c.Added(es, 0, 2);
    assert c.Size(es, 1, 3) == c.Size(es, 1, 2) + c.Added(es, 1, 2);
    assert c.Size(es, 2, 3) == c.Size(es, 2, 2) + c.Added(es, 2, 2);
  }

  lemma ThreeCuts(p: Bytes, l: Bytes, es: seq<Entry>)
    requires ThreeEntries(p, l, es) && p != l && |l| > 2
    ensures var c := RoomForTwo(p, l);
            && !c.FitsAlone(es, 2) && !GoodFrom(c, es, 0) && GoodFrom(c, es, 1)
            && Cuts(c, es, 0) == [0, 2] && Cuts(c, es, 1) == [1, 3]
  {
    var c := RoomForTwo(p, l);
    ThreeSizes(p, l, es);
    EndGrows(c, es, 0, 0);
    EndGrows(c, es, 0, 1);
    EndGrows(c, es, 0, 2);
    EndGrows(c, es, 1, 1);
    EndGrows(c, es, 1, 2);
    assert c.End(es, 0, 0) == 2 && c.End(es, 1, 1) == 3;
    assert Cuts(c, es, 2) == [2] && Cuts(c, es, 3) == [3];
  }

  /**
   * Entry 2 does not fit alone, and so the chunk of entries 0 and 1 is followed by an empty one; but behind
   * entry 1 it fits, and so the second attempt, from index 1 on, comes to the end.
   */
  lemma OneFaultThenEnd()
    ensures var p: Bytes := [1];
            var l: Bytes := [2, 2, 2, 2];
            var (c, health) := (RoomForTwo(p, l), [SEMICOLON]);
            var es := [Entry(p, health), Entry(p, health), Entry(l, health)];
            && FrameLaws(c.z)
            && !GoodFrom(c, es, 0) && GoodFrom(c, es, 1) && !LaterFit(c, es) && Terminates(c, es)
  {
    var p: Bytes := [1];
    var l: Bytes := [2, 2, 2, 2];
    var (c, health) := (RoomForTwo(p, l), [SEMICOLON]);
    var es := [Entry(p, health), Entry(p, health), Entry(l, health)];
    DictionaryObeysLaws(p, l);
    ThreeCuts(p, l, es);
    TerminatesExactly(c, es);
  }

  // ---------------------------------------------------------------- eleven rows

  function PlainRow(): Row {
    Row(0, Zeros(64), 0, 0, 0, Zeros(20), 0, 0, [], [], [], None, None)
  }

  lemma {:induction false} PackSucceeds(fs: seq<Format>, vs: seq<Value>)
    requires |fs| == |vs| && forall i :: 0 <= i < |fs| ==> PackField(fs[i], vs[i]).Ok?
    ensures Pack(fs, vs).Ok?
  {
    if fs != [] {
      PackSucceeds(fs[1..], vs[1..]);
    }
  }

  lemma PlainRowIsSendable()
    ensures Sendable(PlainRow())
  {
    var (fs, vs) := (TORRENT_FORMAT, Fields(PlainRow()));
    assert REGULAR_TORRENT < Range(2);
    PackSucceeds(fs, vs);
  }

  predicate NoneFitsBehind(c: Chunker, es: seq<Entry>, j: nat)
    requires j < |es|
  {
    j + 1 < |es| ==> c.Size(es, j, j + 2) > c.limit
  }

  function Upwards(first: nat, last: nat): seq<nat>
    requires first <= last
    decreases last - first
  {
    if first == last then [last] else [first] + Upwards(first + 1, last)
  }

  lemma {:induction false} UpwardsAt(first: nat, last: nat)
    requires first <= last
    ensures |Upwards(first, last)| == last - first + 1
    ensures forall k :: 0 <= k <= last - first ==> Upwards(first, last)[k] == first + k
    decreases last - first
  {
    if first < last {
      UpwardsAt(first + 1, last);
    }
  }

  /** Every entry fits alone, and no two neighbours fit together. */
  predicate Apart(c: Chunker, es: seq<Entry>) {
    LaterFit(c, es) && forall j :: 0 <= j < |es| ==> NoneFitsBehind(c, es, j)
  }

  lemma {:induction false} ChainIsUpwards(chain: seq<seq<nat>>, i: nat)
    requires i < |chain| && chain[|chain| - 1] == [|chain| - 1]
    requires forall k :: 0 <= k < |chain| - 1 ==> chain[k] == [k] + chain[k + 1]
    ensures chain[i] == Upwards(i, |chain| - 1)
    decreases |chain| - i
  {
    if i < |chain| - 1 {
      ChainIsUpwards(chain, i + 1);
    }
  }

  /** Then every chunk holds one entry. */
  lemma OneEach(c: Chunker, es: seq<Entry>)
    requires Apart(c, es)
    ensures Cuts(c, es, 0) == Upwards(0, |es|)
  {
    var chain := seq(|es| + 1, k requires 0 <= k <= |es| => Cuts(c, es, k));
    forall k | 0 <= k < |es|
      ensures chain[k] == [k] + chain[k + 1]
    {
      CutsStepOnce(c, es, k);
    }
    CutsEnd(c, es);
    ChainIsUpwards(chain, 0);
  }

  lemma CutsEnd(c: Chunker, es: seq<Entry>)
    ensures Cuts(c, es, |es|) == [|es|]
  {
  }

  lemma CutsStepOnce(c: Chunker, es: seq<Entry>, i: nat)
    requires i < |es| && Apart(c, es)
    ensures Cuts(c, es, i) == [i] + Cuts(c, es, i + 1)
  {
    assert NoneFitsBehind(c, es, i);
    ProgressIff(c, es, i);
    EndStepsOnce(c, es, i);
  }

  lemma EndStepsOnce(c: Chunker, es: seq<Entry>, i: nat)
    requires i < |es| && c.End(es, i, i) > i
    requires i < |es| - 1 ==> c.Size(es, i, i + 2) > c.limit
    ensures c.End(es, i, i) == i + 1
  {
    EndGrows(c, es, i, i);
    EndGrows(c, es, i, i + 1);
  }

  function Elevenfold(row: Row): seq<Row> {
    seq(11, _ => row)
  }

  /** A size limit that leaves room for this row, and for no other beside it. */
  function RoomForOne(row: Row): Chunker
    requires Sendable(row)
  {
    Chunker(Stored(), 8 + 2 * |Serialized(row).value| + |SerializedHealth(row.health)|, true)
  }

  lemma StoredSizes(row: Row, j: nat)
    requires Sendable(row) && j < 11
    ensures AllSendable(Elevenfold(row))
    ensures var (c, es) := (RoomForOne(row), Entries(Elevenfold(row)));
            c.FitsAlone(es, j) && NoneFitsBehind(c, es, j)
  {
    var (c, es) := (RoomForOne(row), Entries(Elevenfold(row)));
    PackedStartsWithType(row);
    assert c.Size(es, j, j + 1) == c.Size(es, j, j) + c.Added(es, j, j);
    if j + 1 < 11 {
      assert c.Size(es, j, j + 2) == c.Size(es, j, j + 1) + c.Added(es, j, j + 1);
    }
  }

  /** Eleven rows in eleven chunks: the receiver learns ten of them. */
  lemma TenOfElevenArrive()
    ensures Sendable(PlainRow()) && AllSendable(Elevenfold(PlainRow()))
    ensures var (c, rows) := (RoomForOne(PlainRow()), Elevenfold(PlainRow()));
            && Ends(c, Entries(rows)) && |Sent(c, Entries(rows))| == 11
            && LearnFromAll(c.z, FirstPackets(Sent(c, Entries(rows)))) == Expected(rows[..10])
            && Expected(rows[..10]) != Expected(rows)
  {
    PlainRowIsSendable();
    ElevenChunks(PlainRow());
    ElevenAreMeasurable(PlainRow());
    MeasurablePacks(RoomForOne(PlainRow()), Entries(Elevenfold(PlainRow())));
    var (c, rows) := (RoomForOne(PlainRow()), Elevenfold(PlainRow()));
    StoredObeysLaws();
    GossipRoundTrip.GossipRoundTrip(c, rows);
    FewerRowsDiffer(rows, 10);
  }

  lemma ElevenChunks(row: Row)
    requires Sendable(row)
    ensures AllSendable(Elevenfold(row))
    ensures var (c, rows) := (RoomForOne(row), Elevenfold(row));
            && GoodFrom(c, Entries(rows), 0) && |Sent(c, Entries(rows))| == 11
            && Carried(c, rows, 10) == rows[..10]
  {
    ElevenAreApart(row);
    OneInEachChunk(RoomForOne(row), Elevenfold(row), 10);
  }

  lemma ElevenAreApart(row: Row)
    requires Sendable(row)
    ensures AllSendable(Elevenfold(row)) && Apart(RoomForOne(row), Entries(Elevenfold(row)))
  {
    var (c, rows) := (RoomForOne(row), Elevenfold(row));
    forall j: nat | j < 11
      ensures c.FitsAlone(Entries(rows), j) && NoneFitsBehind(c, Entries(rows), j)
    {
      StoredSizes(row, j);
    }
  }

  lemma OneInEachChunk(c: Chunker, rows: seq<Row>, k: nat)
    requires rows != [] && AllSendable(rows) && Apart(c, Entries(rows)) && k <= |rows|
    ensures GoodFrom(c, Entries(rows), 0) && |Sent(c, Entries(rows))| == |rows|
    ensures Carried(c, rows, k) == rows[..k]
  {
    OneEach(c, Entries(rows));
    LaterFitIsGood(c, Entries(rows), 0);
    GoodSentLength(c, Entries(rows));
    RowsBeforeNumber(rows, Cuts(c, Entries(rows), 0), Cuts(c, Entries(rows), 1), k);
  }

  lemma GoodSentLength(c: Chunker, es: seq<Entry>)
    requires es != [] && GoodFrom(c, es, 0)
    ensures |Sent(c, es)| == |Cuts(c, es, 0)| - 1
  {
    SentLiesBetween(c, es);
  }

  lemma RowsBeforeNumber(rows: seq<Row>, first: seq<nat>, again: seq<nat>, k: nat)
    requires Ordered(first, |rows|) && Ordered(again, |rows|) && again[0] == 1
    requires first == Upwards(0, |rows|) && k <= |rows|
    ensures |first| == |rows| + 1 && RowsBetween(rows, first, again, k) == rows[..k]
  {
    UpwardsAt(0, |rows|);
  }

  lemma ElevenAreMeasurable(row: Row)
    requires Sendable(row) && row.health.None?
    ensures AllSendable(Elevenfold(row)) && Measurable(Entries(Elevenfold(row)))
  {
    var hs := Healths(Entries(Elevenfold(row)));
    ShortTexts(hs);
    assert |hs| == 11;
  }

  /** A missing health row is sent as a single semicolon. */
  lemma {:induction false} ShortTexts(hs: seq<Bytes>)
    requires forall i :: 0 <= i < |hs| ==> hs[i] == [SEMICOLON]
    ensures |Concat(hs)| == |hs|
  {
    if hs != [] {
      ShortTexts(hs[1..]);
    }
  }

  // ---------------------------------------------------------------- rows that meet a fault

  function SignedRow(): Row {
    PlainRow().(signature := Some(seq(64, _ => 1)))
  }

  lemma SignedRowIsSendable()
    ensures Sendable(PlainRow()) && Sendable(SignedRow())
    ensures Serialized(PlainRow()).value != Serialized(SignedRow()).value && |Serialized(SignedRow()).value| > 2
  {
    PlainRowIsSendable();
    var (plain, signed) := (Serialized(PlainRow()).value, Serialized(SignedRow()).value);
    assert Fields(PlainRow()) == Fields(SignedRow());
    assert plain[|plain| - 1] == 0 && signed[|signed| - 1] == 1;
  }

  /** Two rows that are told apart, and no health row for either. */
  predicate Distinct(a: Row, b: Row) {
    && Sendable(a) && Sendable(b) && a.health.None? && b.health.None?
    && Serialized(a).value != Serialized(b).value && |Serialized(b).value| > 2
  }

  function TwoAndOne(a: Row, b: Row): (rows: seq<Row>)
    ensures |rows| == 3
    ensures Sendable(a) && Sendable(b) ==> AllSendable(rows)
  {
    [a, a, b]
  }

  function RoomForRows(a: Row, b: Row): Chunker
    requires Distinct(a, b)
  {
    RoomForTwo(Serialized(a).value, Serialized(b).value)
  }

  lemma ThreeRowsMeetFault(a: Row, b: Row)
    requires Distinct(a, b)
    ensures var (c, es) := (RoomForRows(a, b), Entries(TwoAndOne(a, b)));
            && !GoodFrom(c, es, 0) && GoodFrom(c, es, 1) && Packs(c, es)
            && Cuts(c, es, 0) == [0, 2] && |Sent(c, es)| == 3
  {
    var es := Entries(TwoAndOne(a, b));
    ThreeCuts(Serialized(a).value, Serialized(b).value, es);
    FaultySentLength(RoomForRows(a, b), es);
    ShortTexts(Healths(es));
    MeasurablePacks(RoomForRows(a, b), es);
  }

  lemma ThreeRowsAreCarried(a: Row, b: Row)
    requires Distinct(a, b)
    requires var (c, es) := (RoomForRows(a, b), Entries(TwoAndOne(a, b)));
      !GoodFrom(c, es, 0) && GoodFrom(c, es, 1) && Cuts(c, es, 0) == [0, 2]
    ensures var (c, rows) := (RoomForRows(a, b), TwoAndOne(a, b));
            Carried(c, rows, |Sent(c, Entries(rows))|) == [a, a, a, b]
  {
    var rows := TwoAndOne(a, b);
    TwiceIsCarried(RoomForRows(a, b), rows);
    assert rows[..2] + rows[1..3] == [a, a, a, b];
  }

  lemma FaultySentLength(c: Chunker, es: seq<Entry>)
    requires es != [] && !GoodFrom(c, es, 0) && GoodFrom(c, es, 1)
    ensures |Sent(c, es)| == |Cuts(c, es, 0)| + |Cuts(c, es, 1)| - 1
  {
    SentLiesBetween(c, es);
  }

  lemma ThreeRowsArrive(a: Row, b: Row)
    requires Distinct(a, b)
    ensures var (c, rows) := (RoomForRows(a, b), TwoAndOne(a, b));
            && FrameLaws(c.z) && c.health
            && Ends(c, Entries(rows)) && Packs(c, Entries(rows)) && !GoodFrom(c, Entries(rows), 0)
            && LearnFromAll(c.z, FirstPackets(Sent(c, Entries(rows)))) == Expected([a, a, a, b])
  {
    DictionaryObeysLaws(Serialized(a).value, Serialized(b).value);
    ThreeRowsMeetFault(a, b);
    ThreeRowsAreCarried(a, b);
    GossipRoundTrip.GossipRoundTrip(RoomForRows(a, b), TwoAndOne(a, b));
  }

  /** Rows that meet a fault: all of them arrive, and the one before the fault and behind index 0 does so twice. */
  lemma FaultyResultArrives()
    ensures Distinct(PlainRow(), SignedRow())
    ensures var (c, rows) := (RoomForRows(PlainRow(), SignedRow()), TwoAndOne(PlainRow(), SignedRow()));
            && FrameLaws(c.z) && c.health
            && Ends(c, Entries(rows)) && Packs(c, Entries(rows)) && !GoodFrom(c, Entries(rows), 0)
            && LearnFromAll(c.z, FirstPackets(Sent(c, Entries(rows)))) ==
               Expected([PlainRow(), PlainRow(), PlainRow(), SignedRow()])
  {
    SignedRowIsSendable();
    ThreeRowsArrive(PlainRow(), SignedRow());
  }
}
