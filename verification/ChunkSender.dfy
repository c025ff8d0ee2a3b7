/** Cutting a query result into size-bounded chunks, and sending them one by one. */
module ChunkSender {
  import opened Binary
  import opened Outcomes

  // ---------------------------------------------------------------- compression

  /**
   * An LZ4 frame: `begin()`, what each `compress()` call emits given the data compressed before it,
   * `flush()`, and the decompressor, which also returns the bytes after the frame (None: RuntimeError).
   */
  datatype Compressor = Compressor(
    header: Bytes,
    block: (seq<Bytes>, Bytes) -> Bytes,
    endMark: Bytes,
    decompress: Bytes -> Option<(Bytes, Bytes)>)

  function Blocks(z: Compressor, xs: seq<Bytes>): Bytes {
    if xs == [] then []
    else Blocks(z, xs[..|xs| - 1]) + z.block(xs[..|xs| - 1], xs[|xs| - 1])
  }

  function Frame(z: Compressor, xs: seq<Bytes>): Bytes {
    z.header + Blocks(z, xs) + z.endMark
  }

  /** Decompression undoes compression, finds the end of the frame, and the end mark has its documented size. */
  ghost predicate FrameLaws(z: Compressor) {
    && |z.endMark| == LZ4_END_MARK_SIZE
    && forall xs: seq<Bytes>, rest: Bytes {:trigger z.decompress(Frame(z, xs) + rest)} ::
         z.decompress(Frame(z, xs) + rest) == Some((Concat(xs), rest))
  }

  /** A compressor that does not use earlier data as a dictionary. */
  ghost predicate HistoryFree(z: Compressor) {
    forall h: seq<Bytes>, x: Bytes :: z.block(h, x) == z.block([], x)
  }

  const LZ4_END_MARK_SIZE: nat := 4
  const HEALTH_ITEM_HEADER_SIZE: nat := 4
  const LZ4_EMPTY_ARCHIVE: Bytes := [0x04, 0x22, 0x4d, 0x18, 0x40, 0x40, 0xc0, 0, 0, 0, 0]

  // ---------------------------------------------------------------- one chunk

  /** What serialized() and serialized_health() return for a metadata entry. */
  datatype Entry = Entry(data: Bytes, health: Bytes)

  function Datas(es: seq<Entry>): (xs: seq<Bytes>)
    ensures |xs| == |es|
    ensures forall i :: 0 <= i < |es| ==> xs[i] == es[i].data
  {
    seq(|es|, i requires 0 <= i < |es| => es[i].data)
  }

  function Healths(es: seq<Entry>): (hs: seq<Bytes>)
    ensures |hs| == |es|
    ensures forall i :: 0 <= i < |es| ==> hs[i] == es[i].health
  {
    seq(|es|, i requires 0 <= i < |es| => es[i].health)
  }

  /** The parameters of a chunk: the compressor, the size limit, and whether health is included. */
  datatype Chunker = Chunker(z: Compressor, limit: nat, health: bool) {

    function HealthBytes(e: Entry): Bytes {
      if health then e.health else []
    }

    /** Bytes added by entry `k` when the chunk started at `start`. */
    function Added(es: seq<Entry>, start: nat, k: nat): nat
      requires start <= k < |es|
    {
      |z.block(Datas(es[start..k]), es[k].data)| + |HealthBytes(es[k])|
    }

    /** The bytes a chunk takes when it holds the entries from `start` up to `end`. */
    function Size(es: seq<Entry>, start: nat, end: nat): nat
      requires start <= end <= |es|
    {
      if end == start then |z.header| + LZ4_END_MARK_SIZE + (if health then HEALTH_ITEM_HEADER_SIZE else 0)
      else Size(es, start, end - 1) + Added(es, start, end - 1)
    }

    /** Entry `i` fits in a chunk of its own. */
    predicate FitsAlone(es: seq<Entry>, i: nat)
      requires i < |es|
    {
      Size(es, i, i + 1) <= limit
    }

    /** Where a chunk that holds the entries from `start` up to `count` stops growing. */
    function End(es: seq<Entry>, start: nat, count: nat): (end: nat)
      requires start <= count <= |es|
      ensures count <= end <= |es|
      decreases |es| - count
    {
      if count < |es| && (count == 0 || Size(es, start, count + 1) <= limit) then End(es, start, count + 1)
      else count
    }

    /** The index returned with the chunk: one past the last entry put in, but 1 when none was put in. */
    function Next(es: seq<Entry>, start: nat): nat
      requires start < |es|
    {
      if End(es, start, start) == start then 1 else End(es, start, start)
    }

    /** The metadata buffer, without the end mark. */
    function Metadata(es: seq<Entry>, start: nat, end: nat): Bytes
      requires start <= end <= |es|
    {
      if end == start then z.header
      else Metadata(es, start, end - 1) + z.block(Datas(es[start..end - 1]), es[end - 1].data)
    }

    /** The health buffer, without its length. */
    function Health(es: seq<Entry>, start: nat, end: nat): Bytes
      requires start <= end <= |es|
    {
      if end == start then [] else Health(es, start, end - 1) + HealthBytes(es[end - 1])
    }

    function Chunk(es: seq<Entry>, start: nat, end: nat): Bytes
      requires start <= end <= |es|
    {
      Metadata(es, start, end) + z.endMark + (if health then VarLenBytes(Health(es, start, end)) else [])
    }
  }

  /** Bytes behind their 4-byte length; too many of them cannot be packed. */
  function VarLenBytes(text: Bytes): Bytes {
    if |text| < Range(4) then BigEndian(|text|, 4) + text else []
  }

  /** A chunk and the index after its last entry, or one of the two exceptions. */
  datatype Cut = Cut(data: Bytes, next: nat) | IncorrectStartIndex | HealthTooLong

  /** entries_to_chunk: grow the two buffers until the next entry would break the limit. */
  method EntriesToChunk(c: Chunker, es: seq<Entry>, start: nat) returns (r: Cut)
    ensures r.IncorrectStartIndex? <==> start >= |es|
    ensures start < |es| ==>
      var end := c.End(es, start, start);
      if |c.Health(es, start, end)| >= Range(4) then r == HealthTooLong
      else r == Cut(c.Chunk(es, start, end), c.Next(es, start))
  {
    if start >= |es| {
      return IncorrectStartIndex;
    }
    ghost var end := c.End(es, start, start);
    var metadataBuffer, healthBuffer, index := Fill(c, es, start, end);
    Sealed(c, es, start, end, index);
    r := Seal(c, metadataBuffer, healthBuffer, index);
  }

  /** The loop of entries_to_chunk, for the place where the chunk stops growing. */
  method Fill(c: Chunker, es: seq<Entry>, start: nat, ghost end: nat)
      returns (metadataBuffer: Bytes, healthBuffer: Bytes, index: nat)
    requires start < |es| && end == c.End(es, start, start)
    ensures index == if end == start then 0 else end - 1
    ensures metadataBuffer == c.Metadata(es, start, end) && healthBuffer == c.Health(es, start, end)
  {
    metadataBuffer := c.z.header;
    healthBuffer := [];
    var history: seq<Bytes> := [];
    index := 0;
    var size: nat := |metadataBuffer| + LZ4_END_MARK_SIZE;
    if c.health {
      size := size + HEALTH_ITEM_HEADER_SIZE;
    }
    var count := start;
    while count < |es|
      invariant start <= count <= |es|
      invariant history == Datas(es[start..count]) && size == c.Size(es, start, count)
      invariant metadataBuffer == c.Metadata(es, start, count) && healthBuffer == c.Health(es, start, count)
      invariant index == if count == start then 0 else count - 1
      invariant end == c.End(es, start, count)
    {
      var metadataBytes := c.z.block(history, es[count].data);
      var healthBytes := c.HealthBytes(es[count]);
      DatasStep(es, start, count);
      size := size + |metadataBytes| + |healthBytes|;
      if size > c.limit && count > 0 {
        break;
      }
      metadataBuffer := metadataBuffer + metadataBytes;
      healthBuffer := healthBuffer + healthBytes;
      history := history + [es[count].data];
      index := count;
      count := count + 1;
    }
  }

  lemma Sealed(c: Chunker, es: seq<Entry>, start: nat, end: nat, index: nat)
    requires start < |es| && end == c.End(es, start, start)
    requires index == if end == start then 0 else end - 1
    ensures index + 1 == c.Next(es, start) && (c.health || c.Health(es, start, end) == [])
    ensures c.Metadata(es, start, end) + c.z.endMark
            + (if c.health then VarLenBytes(c.Health(es, start, end)) else []) == c.Chunk(es, start, end)
  {
    HealthHolds(c, es, start, end);
  }

  /** The end of entries_to_chunk: the frame is closed, and the health text appended. */
  method Seal(c: Chunker, metadataBuffer: Bytes, healthBuffer: Bytes, index: nat) returns (r: Cut)
    requires c.health || healthBuffer == []
    ensures r == if |healthBuffer| >= Range(4) then HealthTooLong
                 else Cut(metadataBuffer + c.z.endMark + (if c.health then VarLenBytes(healthBuffer) else []), index + 1)
  {
    var result := metadataBuffer + c.z.endMark;
    if c.health {
      if |healthBuffer| >= Range(4) {
        return HealthTooLong;
      }
      result := result + VarLenBytes(healthBuffer);
    } else {
      assert result == result + [];
    }
    r := Cut(result, index + 1);
  }

  lemma DatasStep(es: seq<Entry>, start: nat, count: nat)
    requires start <= count < |es|
    ensures Datas(es[start..count + 1]) == Datas(es[start..count]) + [es[count].data]
  {
  }

  /** What the buffers hold: the begun frame of a list of entries, and the concatenation of their health. */
  lemma {:induction false} MetadataHolds(c: Chunker, es: seq<Entry>, start: nat, end: nat)
    requires start <= end <= |es|
    ensures c.Metadata(es, start, end) == c.z.header + Blocks(c.z, Datas(es[start..end]))
    decreases end
  {
    if end == start {
      assert Datas(es[start..end]) == [];
    } else {
      MetadataHolds(c, es, start, end - 1);
      DatasStep(es, start, end - 1);
      BlocksStep(c.z, Datas(es[start..end - 1]), es[end - 1].data);
    }
  }

  lemma {:induction false} HealthHolds(c: Chunker, es: seq<Entry>, start: nat, end: nat)
    requires start <= end <= |es|
    ensures c.Health(es, start, end) == if c.health then Concat(Healths(es[start..end])) else []
    decreases end
  {
    if end == start {
      assert Healths(es[start..end]) == [];
    } else {
      HealthHolds(c, es, start, end - 1);
      if c.health {
        assert Healths(es[start..end]) == Healths(es[start..end - 1]) + [es[end - 1].health];
        ConcatAppend(Healths(es[start..end - 1]), es[end - 1].health);
      }
    }
  }

  lemma BlocksStep(z: Compressor, xs: seq<Bytes>, x: Bytes)
    ensures z.header + Blocks(z, xs + [x]) == z.header + Blocks(z, xs) + z.block(xs, x)
  {
    assert (xs + [x])[..|xs|] == xs;
  }

  // ---------------------------------------------------------------- what a chunk may weigh

  lemma {:induction false} SizeGrows(c: Chunker, es: seq<Entry>, start: nat, end: nat, more: nat)
    requires start <= end <= more <= |es|
    ensures c.Size(es, start, end) <= c.Size(es, start, more)
    decreases more
  {
    if end < more {
      SizeGrows(c, es, start, end, more - 1);
    }
  }

  predicate Grows(c: Chunker, es: seq<Entry>, start: nat, count: nat)
    requires start <= count <= |es|
  {
    count < |es| && (count == 0 || c.Size(es, start, count + 1) <= c.limit)
  }

  lemma EndGrows(c: Chunker, es: seq<Entry>, start: nat, count: nat)
    requires start <= count <= |es|
    ensures c.End(es, start, count) == if Grows(c, es, start, count) then c.End(es, start, count + 1) else count
  {
  }

  lemma {:induction false} EndStops(c: Chunker, es: seq<Entry>, start: nat, count: nat)
    requires start <= count <= |es|
    ensures !Grows(c, es, start, c.End(es, start, count))
    decreases |es| - count
  {
    EndGrows(c, es, start, count);
    if Grows(c, es, start, count) {
      EndStops(c, es, start, count + 1);
    }
  }

  lemma {:induction false} EndGrew(c: Chunker, es: seq<Entry>, start: nat, count: nat)
    requires start <= count <= |es|
    ensures var end := c.End(es, start, count); end == count || Grows(c, es, start, end - 1)
    decreases |es| - count
  {
    EndGrows(c, es, start, count);
    if Grows(c, es, start, count) {
      EndGrew(c, es, start, count + 1);
    }
  }

  /** The chunk ends at the first entry that no longer fits; only entry 0 is taken without looking at the limit. */
  lemma EndIsMaximal(c: Chunker, es: seq<Entry>, start: nat, count: nat)
    requires start <= count <= |es|
    requires count == start || count == 1 || c.Size(es, start, count) <= c.limit
    ensures var end := c.End(es, start, count);
            && (end == start || end == 1 || c.Size(es, start, end) <= c.limit)
            && (end == |es| || (end > 0 && c.Size(es, start, end + 1) > c.limit))
  {
    EndStops(c, es, start, count);
    EndGrew(c, es, start, count);
  }

  /** The size counted while the chunk grows is the number of bytes the chunk has. */
  lemma {:induction false} SizeIsLength(c: Chunker, es: seq<Entry>, start: nat, end: nat)
    requires start <= end <= |es|
    requires |c.z.endMark| == LZ4_END_MARK_SIZE
    ensures c.Size(es, start, end) ==
            |c.Metadata(es, start, end)| + LZ4_END_MARK_SIZE
            + (if c.health then HEALTH_ITEM_HEADER_SIZE + |c.Health(es, start, end)| else 0)
    decreases end
  {
    if end > start {
      SizeIsLength(c, es, start, end - 1);
    }
  }

  /** No chunk is longer than the limit, except a first chunk that holds nothing but one oversized entry. */
  lemma ChunkWithinLimit(c: Chunker, es: seq<Entry>, start: nat)
    requires start < |es|
    requires |c.z.endMark| == LZ4_END_MARK_SIZE
    requires start < c.End(es, start, start)
    ensures var end := c.End(es, start, start);
            |c.Chunk(es, start, end)| <= c.limit || (start == 0 && end == 1)
  {
    var end := c.End(es, start, start);
    EndIsMaximal(c, es, start, start);
    SizeIsLength(c, es, start, end);
  }

  // ---------------------------------------------------------------- when sending gets on

  /**
   * The returned index moves past `start` exactly when `start` is 0 or its entry fits in a chunk of its own;
   * the documentation promises it for every `start`.
   */
  lemma ProgressIff(c: Chunker, es: seq<Entry>, start: nat)
    requires start < |es|
    ensures c.Next(es, start) > start <==> start == 0 || c.FitsAlone(es, start)
    ensures c.Next(es, start) > start ==> c.Next(es, start) == c.End(es, start, start)
  {
  }

  /** The index after `rounds` rounds of the sending loop. */
  function After(c: Chunker, es: seq<Entry>, rounds: nat): nat {
    if rounds == 0 then 0
    else
      var index := After(c, es, rounds - 1);
      if index < |es| then c.Next(es, index) else index
  }

  ghost predicate Terminates(c: Chunker, es: seq<Entry>) {
    exists rounds :: After(c, es, rounds) >= |es|
  }

  predicate LaterFit(c: Chunker, es: seq<Entry>) {
    forall i :: 0 < i < |es| ==> c.FitsAlone(es, i)
  }

  /**
   * Sending from index `i` on gets to the end without a fault: at every place where a chunk begins, the entry
   * there is entry 0 or fits in a chunk of its own.
   */
  predicate GoodFrom(c: Chunker, es: seq<Entry>, i: nat)
    decreases |es| - i
  {
    i >= |es| || ((i == 0 || c.FitsAlone(es, i)) && (ProgressIff(c, es, i); GoodFrom(c, es, c.End(es, i, i))))
  }

  lemma RoundOf(c: Chunker, es: seq<Entry>, rounds: nat)
    requires After(c, es, rounds) < |es|
    ensures var i := After(c, es, rounds);
            After(c, es, rounds + 1) == if i == 0 || c.FitsAlone(es, i) then c.End(es, i, i) else 1
  {
    var i := After(c, es, rounds);
    ProgressIff(c, es, i);
    if i != 0 && !c.FitsAlone(es, i) {
      FaultReturnsOne(c, es, i);
    }
  }

  lemma FaultReturnsOne(c: Chunker, es: seq<Entry>, i: nat)
    requires i < |es| && i != 0 && !c.FitsAlone(es, i)
    ensures c.End(es, i, i) == i && c.Next(es, i) == 1
  {
  }

  lemma GoodStep(c: Chunker, es: seq<Entry>, i: nat)
    requires i < |es| && (i == 0 || c.FitsAlone(es, i))
    ensures i < c.End(es, i, i)
    ensures GoodFrom(c, es, i) <==> GoodFrom(c, es, c.End(es, i, i))
  {
    ProgressIff(c, es, i);
  }

  lemma {:induction false} GoodReachesEnd(c: Chunker, es: seq<Entry>, rounds: nat)
    requires GoodFrom(c, es, After(c, es, rounds))
    ensures Terminates(c, es)
    decreases |es| - After(c, es, rounds)
  {
    var i := After(c, es, rounds);
    if i < |es| {
      RoundOf(c, es, rounds);
      GoodStep(c, es, i);
      GoodReachesEnd(c, es, rounds + 1);
    }
  }

  lemma {:induction false} FaultStartsOver(c: Chunker, es: seq<Entry>, rounds: nat) returns (r: nat)
    requires !GoodFrom(c, es, After(c, es, rounds))
    ensures After(c, es, r) == 1
    decreases |es| - After(c, es, rounds)
  {
    var i := After(c, es, rounds);
    RoundOf(c, es, rounds);
    if i == 0 || c.FitsAlone(es, i) {
      GoodStep(c, es, i);
      r := FaultStartsOver(c, es, rounds + 1);
    } else {
      r := rounds + 1;
    }
  }

  lemma {:induction false} FaultsForEver(c: Chunker, es: seq<Entry>, rounds: nat)
    requires !GoodFrom(c, es, 0) && !GoodFrom(c, es, 1)
    ensures !GoodFrom(c, es, After(c, es, rounds))
  {
    if rounds > 0 {
      FaultsForEver(c, es, rounds - 1);
      RoundOf(c, es, rounds - 1);
      var i := After(c, es, rounds - 1);
      if i == 0 || c.FitsAlone(es, i) {
        GoodStep(c, es, i);
      }
    }
  }

  predicate Ends(c: Chunker, es: seq<Entry>) {
    GoodFrom(c, es, 0) || GoodFrom(c, es, 1)
  }

  /**
   * For every compressor: the sending loop ends exactly when it meets no fault from index 0 on, or none from
   * index 1 on. A first fault makes it start over from index 1, a second one for ever.
   */
  lemma TerminatesExactly(c: Chunker, es: seq<Entry>)
    ensures Terminates(c, es) <==> Ends(c, es)
  {
    if GoodFrom(c, es, 0) {
      GoodReachesEnd(c, es, 0);
    } else if GoodFrom(c, es, 1) {
      var r := FaultStartsOver(c, es, 0);
      GoodReachesEnd(c, es, r);
    } else {
      forall rounds
        ensures After(c, es, rounds) < |es|
      {
        FaultsForEver(c, es, rounds);
      }
    }
  }

  /** Entries that all fit alone make no fault, wherever sending begins. */
  lemma {:induction false} LaterFitIsGood(c: Chunker, es: seq<Entry>, i: nat)
    requires LaterFit(c, es)
    ensures GoodFrom(c, es, i)
    decreases |es| - i
  {
    if i < |es| {
      ProgressIff(c, es, i);
      LaterFitIsGood(c, es, c.End(es, i, i));
    }
  }

  lemma {:induction false} RoundsAdvance(c: Chunker, es: seq<Entry>, rounds: nat)
    requires LaterFit(c, es)
    ensures After(c, es, rounds) >= (if rounds < |es| then rounds else |es|)
  {
    if rounds > 0 {
      RoundsAdvance(c, es, rounds - 1);
      var index := After(c, es, rounds - 1);
      if index < |es| {
        ProgressIff(c, es, index);
      }
    }
  }

  /** Without a dictionary, an entry that does not fit alone fits behind no other entry either. */
  lemma StuckAt(c: Chunker, es: seq<Entry>, start: nat, j: nat)
    requires HistoryFree(c.z)
    requires start <= j < |es| && j > 0 && !c.FitsAlone(es, j)
    ensures c.Next(es, start) <= j
  {
    var end := c.End(es, start, start);
    if end > j {
      EndIsMaximal(c, es, start, start);
      SizeGrows(c, es, start, j + 1, end);
      SizeGrows(c, es, start, start, j);
      AddedAlone(c, es, start, j);
      SizeAlone(c, es, j);
    }
  }

  lemma SizeAlone(c: Chunker, es: seq<Entry>, i: nat)
    requires i < |es|
    ensures c.Size(es, i, i + 1) == c.Size(es, i, i) + c.Added(es, i, i)
  {
  }

  lemma AddedAlone(c: Chunker, es: seq<Entry>, start: nat, k: nat)
    requires HistoryFree(c.z)
    requires start <= k < |es|
    ensures c.Added(es, start, k) == c.Added(es, k, k)
  {
    var data := es[k].data;
    assert c.z.block(Datas(es[start..k]), data) == c.z.block([], data);
    assert c.z.block(Datas(es[k..k]), data) == c.z.block([], data);
  }

  lemma {:induction false} NeverPasses(c: Chunker, es: seq<Entry>, j: nat, rounds: nat)
    requires HistoryFree(c.z)
    requires 0 < j < |es| && !c.FitsAlone(es, j)
    ensures After(c, es, rounds) <= j
  {
    if rounds > 0 {
      NeverPasses(c, es, j, rounds - 1);
      StuckAt(c, es, After(c, es, rounds - 1), j);
    }
  }

  /** The sending loop ends whenever every entry after the first fits alone, whatever the compressor. */
  lemma TerminatesWhenLaterFit(c: Chunker, es: seq<Entry>)
    requires LaterFit(c, es)
    ensures Terminates(c, es)
  {
    RoundsAdvance(c, es, |es|);
  }

  /** For a compressor that compresses every entry on its own, that condition is also necessary. */
  lemma TerminatesIff(c: Chunker, es: seq<Entry>)
    requires HistoryFree(c.z)
    ensures Terminates(c, es) <==> LaterFit(c, es)
  {
    if LaterFit(c, es) {
      TerminatesWhenLaterFit(c, es);
    } else {
      var j :| 0 < j < |es| && !c.FitsAlone(es, j);
      forall rounds
        ensures After(c, es, rounds) < |es|
      {
        NeverPasses(c, es, j, rounds);
      }
    }
  }

  // ---------------------------------------------------------------- the sending loop

  /** The health text of the whole result can be given its 4-byte length. */
  predicate Measurable(es: seq<Entry>) {
    |Concat(Healths(es))| < Range(4)
  }

  lemma PartIsMeasurable(c: Chunker, es: seq<Entry>, start: nat, end: nat)
    requires start <= end <= |es| && Measurable(es)
    ensures |c.Health(es, start, end)| < Range(4)
  {
    var hs := Healths(es);
    HealthHolds(c, es, start, end);
    assert Healths(es[start..end]) == hs[start..end];
    assert hs == hs[..start] + hs[start..end] + hs[end..];
    ConcatConcat(hs[..start] + hs[start..end], hs[end..]);
    ConcatConcat(hs[..start], hs[start..end]);
  }

  /** The health text of a chunk can be given its 4-byte length. */
  predicate PartPacks(c: Chunker, es: seq<Entry>, start: nat, end: nat)
    requires start <= end <= |es|
  {
    |c.Health(es, start, end)| < Range(4)
  }

  /** So can that of every chunk that is made from index `i` on, up to the end or to a fault. */
  predicate PacksFrom(c: Chunker, es: seq<Entry>, i: nat)
    decreases |es| - i
  {
    i >= |es| || (i != 0 && !c.FitsAlone(es, i)) ||
    (ProgressIff(c, es, i); PartPacks(c, es, i, c.End(es, i, i)) && PacksFrom(c, es, c.End(es, i, i)))
  }

  /** And of every chunk that is sent at all. */
  predicate Packs(c: Chunker, es: seq<Entry>) {
    PacksFrom(c, es, 0) && (GoodFrom(c, es, 0) || PacksFrom(c, es, 1))
  }

  lemma {:induction false} MeasurablePacksFrom(c: Chunker, es: seq<Entry>, i: nat)
    requires Measurable(es)
    ensures PacksFrom(c, es, i)
    decreases |es| - i
  {
    if i < |es| && (i == 0 || c.FitsAlone(es, i)) {
      ProgressIff(c, es, i);
      PartIsMeasurable(c, es, i, c.End(es, i, i));
      MeasurablePacksFrom(c, es, c.End(es, i, i));
    }
  }

  /** A short health text in all is enough. */
  lemma MeasurablePacks(c: Chunker, es: seq<Entry>)
    requires Measurable(es)
    ensures Packs(c, es)
  {
    MeasurablePacksFrom(c, es, 0);
    MeasurablePacksFrom(c, es, 1);
  }

  predicate Ordered(cuts: seq<nat>, n: nat) {
    cuts != [] && cuts[|cuts| - 1] <= n && forall i, j :: 0 <= i < j < |cuts| ==> cuts[i] < cuts[j] <= n
  }

  /**
   * Where the chunks begin when sending goes on from `index`, and finally the end of the list or the first entry
   * that makes a fault.
   */
  function Cuts(c: Chunker, es: seq<Entry>, index: nat): (cuts: seq<nat>)
    requires index <= |es|
    ensures Ordered(cuts, |es|) && cuts[0] == index
    ensures cuts[|cuts| - 1] == |es| <==> GoodFrom(c, es, index)
    decreases |es| - index
  {
    if index == |es| || (index > 0 && !c.FitsAlone(es, index)) then [index]
    else
      ProgressIff(c, es, index);
      [index] + Cuts(c, es, c.End(es, index, index))
  }

  predicate CutsPack(c: Chunker, es: seq<Entry>, cuts: seq<nat>)
    requires Ordered(cuts, |es|)
  {
    forall i :: 0 <= i < |cuts| - 1 ==> PartPacks(c, es, cuts[i], cuts[i + 1])
  }

  lemma {:induction false} PacksBetweenCuts(c: Chunker, es: seq<Entry>, index: nat)
    requires index <= |es| && PacksFrom(c, es, index)
    ensures CutsPack(c, es, Cuts(c, es, index))
    decreases |es| - index
  {
    if index < |es| && (index == 0 || c.FitsAlone(es, index)) {
      ProgressIff(c, es, index);
      var (cuts, rest) := (Cuts(c, es, index), Cuts(c, es, c.End(es, index, index)));
      PacksBetweenCuts(c, es, c.End(es, index, index));
      assert cuts == [index] + rest;
      forall i | 0 <= i < |cuts| - 1
        ensures PartPacks(c, es, cuts[i], cuts[i + 1])
      {
        if i > 0 {
          assert cuts[i] == rest[i - 1] && cuts[i + 1] == rest[i];
        }
      }
    }
  }

  /** The chunks between neighbouring cuts. */
  function Between(c: Chunker, es: seq<Entry>, cuts: seq<nat>): (chunks: seq<Bytes>)
    requires Ordered(cuts, |es|)
    ensures |chunks| == |cuts| - 1
    ensures forall i :: 0 <= i < |chunks| ==> chunks[i] == c.Chunk(es, cuts[i], cuts[i + 1])
  {
    seq(|cuts| - 1, i requires 0 <= i < |cuts| - 1 => c.Chunk(es, cuts[i], cuts[i + 1]))
  }

  /**
   * What is sent from `index` on until the end: the chunks between the cuts, and after a fault an empty chunk and
   * everything from index 1 on.
   */
  function Remaining(c: Chunker, es: seq<Entry>, index: nat): seq<Bytes>
    requires index <= |es|
  {
    var cuts := Cuts(c, es, index);
    if GoodFrom(c, es, index) then Between(c, es, cuts)
    else
      var fault := cuts[|cuts| - 1];
      Between(c, es, cuts) + [c.Chunk(es, fault, fault)] + Between(c, es, Cuts(c, es, 1))
  }

  /** The blobs sent for a query result; an empty result is answered with an empty archive. */
  function Sent(c: Chunker, es: seq<Entry>): seq<Bytes>
    requires Ends(c, es)
  {
    if es == [] then [LZ4_EMPTY_ARCHIVE] else Remaining(c, es, 0)
  }

  lemma BetweenStep(c: Chunker, es: seq<Entry>, cuts: seq<nat>, rest: seq<nat>)
    requires Ordered(cuts, |es|) && Ordered(rest, |es|) && cuts == [cuts[0]] + rest && cuts[0] <= rest[0]
    ensures Between(c, es, cuts) == [c.Chunk(es, cuts[0], rest[0])] + Between(c, es, rest)
  {
    var (all, some) := (Between(c, es, cuts), Between(c, es, rest));
    forall i | 0 <= i < |some|
      ensures all[i + 1] == some[i]
    {
      assert cuts[i + 1] == rest[i] && cuts[i + 2] == rest[i + 1];
    }
    Headed(all, c.Chunk(es, cuts[0], rest[0]), some);
  }

  lemma Headed<T>(all: seq<T>, x: T, some: seq<T>)
    requires |all| == |some| + 1 && all[0] == x && forall i :: 0 <= i < |some| ==> all[i + 1] == some[i]
    ensures all == [x] + some
  {
    assert forall k :: 0 < k < |all| ==> all[k] == some[k - 1];
  }

  lemma AdvanceStep(c: Chunker, es: seq<Entry>, index: nat)
    requires index < |es| && (index == 0 || c.FitsAlone(es, index))
    ensures var end := c.End(es, index, index);
            && index < end && (GoodFrom(c, es, index) <==> GoodFrom(c, es, end))
            && Remaining(c, es, index) == [c.Chunk(es, index, end)] + Remaining(c, es, end)
  {
    var end := c.End(es, index, index);
    ProgressIff(c, es, index);
    var (cuts, rest) := (Cuts(c, es, index), Cuts(c, es, end));
    assert cuts == [index] + rest;
    BetweenStep(c, es, cuts, rest);
    var (chunk, more) := (c.Chunk(es, index, end), Between(c, es, rest));
    if !GoodFrom(c, es, index) {
      var fault := rest[|rest| - 1];
      assert cuts[|cuts| - 1] == fault;
      Shift(chunk, more, [c.Chunk(es, fault, fault)], Between(c, es, Cuts(c, es, 1)));
    }
  }

  lemma Shift<T>(x: T, a: seq<T>, b: seq<T>, d: seq<T>)
    ensures [x] + a + b + d == [x] + (a + b + d)
  {
  }

  lemma FaultStep(c: Chunker, es: seq<Entry>, index: nat)
    requires 0 < index < |es| && !c.FitsAlone(es, index) && GoodFrom(c, es, 1)
    ensures !GoodFrom(c, es, index)
    ensures Remaining(c, es, index) == [c.Chunk(es, index, index)] + Remaining(c, es, 1)
  {
    assert Cuts(c, es, index) == [index];
  }

  lemma Reassociate<T>(a: seq<T>, x: T, b: seq<T>)
    ensures a + ([x] + b) == a + [x] + b
  {
  }

  /** Sending from this index on comes to an end, and all its chunks can be packed. */
  predicate Heading(c: Chunker, es: seq<Entry>, index: nat) {
    && index <= |es| && PacksFrom(c, es, index)
    && (GoodFrom(c, es, index) || (GoodFrom(c, es, 1) && PacksFrom(c, es, 1)))
  }

  /** How far sending has to go: a fault that lies ahead outweighs all entries. */
  function Ahead(c: Chunker, es: seq<Entry>, index: nat): nat
    requires index <= |es|
  {
    |es| - index + if GoodFrom(c, es, index) then 0 else |es| + 1
  }

  lemma RoundStep(c: Chunker, es: seq<Entry>, index: nat, sent: seq<Bytes>)
    requires index < |es| && Heading(c, es, index)
    ensures PartPacks(c, es, index, c.End(es, index, index))
    ensures var next := c.Next(es, index);
            && Heading(c, es, next) && Ahead(c, es, next) < Ahead(c, es, index)
            && sent + Remaining(c, es, index) ==
               sent + [c.Chunk(es, index, c.End(es, index, index))] + Remaining(c, es, next)
  {
    ProgressIff(c, es, index);
    if index == 0 || c.FitsAlone(es, index) {
      AdvanceStep(c, es, index);
    } else {
      FaultReturnsOne(c, es, index);
      FaultStep(c, es, index);
    }
    Reassociate(sent, c.Chunk(es, index, c.End(es, index, index)), Remaining(c, es, c.Next(es, index)));
  }

  /** One round of send_db_results. */
  method SendRound(c: Chunker, es: seq<Entry>, index: nat, sent: seq<Bytes>)
      returns (more: seq<Bytes>, next: nat)
    requires index < |es| && Heading(c, es, index)
    ensures Heading(c, es, next) && Ahead(c, es, next) < Ahead(c, es, index)
    ensures more + Remaining(c, es, next) == sent + Remaining(c, es, index)
  {
    RoundStep(c, es, index, sent);
    var r := EntriesToChunk(c, es, index);
    more, next := sent + [r.data], r.next;
  }

  /** send_db_results. */
  method SendDbResults(c: Chunker, es: seq<Entry>) returns (sent: seq<Bytes>)
    requires Ends(c, es) && Packs(c, es)
    ensures sent == Sent(c, es)
  {
    if |es| == 0 {
      return [LZ4_EMPTY_ARCHIVE];
    }
    sent := [];
    var index: nat := 0;
    while index < |es|
      invariant Heading(c, es, index)
      invariant sent + Remaining(c, es, index) == Remaining(c, es, 0)
      decreases Ahead(c, es, index)
    {
      sent, index := SendRound(c, es, index, sent);
    }
    NothingRemains(c, es);
  }

  lemma NothingRemains(c: Chunker, es: seq<Entry>)
    ensures Remaining(c, es, |es|) == []
  {
  }
}
