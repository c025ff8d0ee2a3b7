/** End to end: the rows one peer sends are the payloads and health updates another peer learns. */
module GossipRoundTrip {
  import opened Binary
  import opened Outcomes
  import opened PayloadCodec
  import opened TextFields
  import opened TorrentRows
  import opened ChunkSender
  import opened ChunkReceiver
  import opened MetadataMerge

  /** The entries that entries_to_chunk sees for these rows. */
  function Entries(rows: seq<Row>): (es: seq<Entry>)
    requires AllSendable(rows)
    ensures |es| == |rows|
    ensures forall i :: 0 <= i < |rows| ==>
      es[i] == Entry(Serialized(rows[i]).value, SerializedHealth(rows[i].health))
  {
    seq(|rows|, i requires 0 <= i < |rows| => Entry(Serialized(rows[i]).value, SerializedHealth(rows[i].health)))
  }

  function HealthRows(rows: seq<Row>): (hs: seq<Option<Triple>>)
    ensures |hs| == |rows|
    ensures forall i :: 0 <= i < |rows| ==> hs[i] == rows[i].health
  {
    seq(|rows|, i requires 0 <= i < |rows| => rows[i].health)
  }

  /** What the receiver should learn from these rows: every payload as sent, paired with its own health. */
  function Expected(rows: seq<Row>): Learned {
    Learned(WireAll(rows), Updates(WireAll(rows), ReceivedAll(HealthRows(rows))))
  }

  predicate TellsHealth(u: Update, row: Row) {
    && u.infohash == Fit(row.infohash, 20)
    && if row.health.Some? && row.health.value.NonNegative() then u.health == row.health.value
       else u.health == Triple(0, 0, 0)
  }

  /** The payloads say what the rows say, and the updates carry each row's own health where it has a sane one. */
  predicate Tells(l: Learned, rows: seq<Row>) {
    && |l.payloads| == |l.updates| == |rows|
    && (forall i :: 0 <= i < |rows| ==> Says(l.payloads[i], rows[i]) && TellsHealth(l.updates[i], rows[i]))
  }

  // ---------------------------------------------------------------- one chunk

  lemma LearnFromParts(z: Compressor, blob: Bytes, data: Bytes, text: Bytes, ps: seq<Payload>)
    requires |text| < Range(4)
    requires z.decompress(blob) == Some((data, VarLenBytes(text)))
    requires ReadAll(data, 0) == Ok(ps)
    ensures LearnFrom(z, blob) == Learned(ps, Updates(ps, UnpackHealth(text)))
  {
    var unused := VarLenBytes(text);
    assert unused[0..0 + |unused|] == unused;
    UnpackPackedField(VarLen, Raw(text), unused, unused, 0);
  }

  lemma FrameOfPart(c: Chunker, rows: seq<Row>, start: nat, end: nat)
    requires FrameLaws(c.z) && c.health
    requires AllSendable(rows) && start <= end <= |rows|
    ensures c.Health(Entries(rows), start, end) == HealthText(HealthRows(rows[start..end]))
    ensures c.z.decompress(c.Chunk(Entries(rows), start, end)) ==
            Some((Concat(Blobs(rows[start..end])), VarLenBytes(c.Health(Entries(rows), start, end))))
  {
    var es := Entries(rows);
    var part := rows[start..end];
    assert es[start..end] == Entries(part);
    assert Datas(Entries(part)) == Blobs(part);
    assert Healths(Entries(part)) == SerializedHealths(HealthRows(part));
    MetadataHolds(c, es, start, end);
    HealthHolds(c, es, start, end);
    var xs := Blobs(part);
    var unused := VarLenBytes(c.Health(es, start, end));
    assert c.Chunk(es, start, end) == Frame(c.z, xs) + unused;
    assert c.z.decompress(Frame(c.z, xs) + unused) == Some((Concat(xs), unused));
  }

  /** One chunk with its health list gives back its rows, each with its own health. */
  lemma ChunkRoundTrip(c: Chunker, rows: seq<Row>, start: nat, end: nat)
    requires FrameLaws(c.z) && c.health
    requires AllSendable(rows) && start <= end <= |rows|
    requires |c.Health(Entries(rows), start, end)| < Range(4)
    ensures LearnFrom(c.z, c.Chunk(Entries(rows), start, end)) == Expected(rows[start..end])
  {
    var part := rows[start..end];
    var text := c.Health(Entries(rows), start, end);
    FrameOfPart(c, rows, start, end);
    ReadAllSerialized(part, []);
    assert [] + Concat(Blobs(part)) == Concat(Blobs(part));
    LearnFromParts(c.z, c.Chunk(Entries(rows), start, end), Concat(Blobs(part)), text, WireAll(part));
    UnpackPrintedHealth(HealthRows(part));
  }

  // ---------------------------------------------------------------- a whole result

  lemma ExpectedJoin(a: seq<Row>, b: seq<Row>)
    ensures Join(Expected(a), Expected(b)) == Expected(a + b)
    ensures Expected([]) == NOTHING_LEARNED
  {
  }

  function Meaning(rows: seq<Row>): (nat, nat) -> Learned {
    (a: nat, b: nat) => if a <= b <= |rows| then Expected(rows[a..b]) else NOTHING_LEARNED
  }

  lemma MeaningIsAdditive(rows: seq<Row>)
    ensures Additive(|rows|, Meaning(rows))
  {
    forall a: nat
      ensures Meaning(rows)(a, a) == NOTHING_LEARNED
    {
      if a <= |rows| {
        assert rows[a..a] == [];
        ExpectedJoin([], []);
      }
    }
    forall a: nat, b: nat, d: nat | a <= b <= d <= |rows|
      ensures Join(Meaning(rows)(a, b), Meaning(rows)(b, d)) == Meaning(rows)(a, d)
    {
      assert rows[a..b] + rows[b..d] == rows[a..d];
      ExpectedJoin(rows[a..b], rows[b..d]);
    }
  }

  lemma ReaderUndoes(c: Chunker, rows: seq<Row>, read: Bytes -> Learned)
    requires FrameLaws(c.z) && c.health
    requires AllSendable(rows)
    requires forall blob :: read(blob) == LearnFrom(c.z, blob)
    ensures Undoes(read, c, Entries(rows), Meaning(rows))
  {
    forall a: nat, b: nat | a <= b <= |rows| && PartPacks(c, Entries(rows), a, b)
      ensures read(c.Chunk(Entries(rows), a, b)) == Meaning(rows)(a, b)
    {
      ChunkRoundTrip(c, rows, a, b);
    }
  }

  lemma ExpectedTells(rows: seq<Row>)
    ensures Tells(Expected(rows), rows)
  {
    forall i | 0 <= i < |rows|
      ensures Says(Expected(rows).payloads[i], rows[i]) && TellsHealth(Expected(rows).updates[i], rows[i])
    {
      WireNames(rows[i]);
    }
  }

  lemma FewerRowsDiffer(rows: seq<Row>, n: nat)
    requires n < |rows|
    ensures Expected(rows[..n]) != Expected(rows)
  {
    assert |Expected(rows[..n]).payloads| == n;
    assert |Expected(rows).payloads| == |rows|;
  }

  /** The rows in the first `k` blobs that lie between these cuts, with an empty blob between the two lists. */
  function RowsBetween(rows: seq<Row>, first: seq<nat>, again: seq<nat>, k: nat): seq<Row>
    requires Ordered(first, |rows|) && Ordered(again, |rows|) && k < |first| + |again| && again[0] == 1
  {
    var n := |first| - 1;
    if k <= n then rows[..first[k]]
    else
      NotBefore(again, |rows|, k - n - 1);
      rows[..first[n]] + rows[1..again[k - n - 1]]
  }

  lemma NotBefore(cuts: seq<nat>, n: nat, k: nat)
    requires Ordered(cuts, n) && k < |cuts|
    ensures cuts[0] <= cuts[k] <= n
  {
  }

  /**
   * The rows in the first `k` blobs of a result: those before the next cut, and after a fault those from index 1
   * on once more.
   */
  function Carried(c: Chunker, rows: seq<Row>, k: nat): seq<Row>
    requires rows != [] && AllSendable(rows) && Ends(c, Entries(rows)) && k <= |Sent(c, Entries(rows))|
  {
    RowsBetween(rows, Cuts(c, Entries(rows), 0), Cuts(c, Entries(rows), 1), k)
  }

  /** What chunks between any cuts teach, taken up to a number. */
  lemma CutsRoundTrip(c: Chunker, rows: seq<Row>, first: seq<nat>, k: nat)
    requires FrameLaws(c.z) && c.health
    requires AllSendable(rows)
    requires Ordered(first, |rows|) && CutsPack(c, Entries(rows), first) && first[0] == 0 && k < |first|
    ensures LearnFromAll(c.z, Between(c, Entries(rows), first)[..k]) == Expected(rows[..first[k]])
  {
    var read := blob => LearnFrom(c.z, blob);
    MeaningIsAdditive(rows);
    ReaderUndoes(c, rows, read);
    PrefixRoundTrip(read, c, Entries(rows), Meaning(rows), first, k);
    FirstMeans(rows, first[k]);
  }

  /** The same for two lists of cuts with an empty chunk in between. */
  lemma TwoCutsRoundTrip(c: Chunker, rows: seq<Row>, first: seq<nat>, again: seq<nat>, k: nat)
    requires FrameLaws(c.z) && c.health
    requires AllSendable(rows)
    requires Ordered(first, |rows|) && Ordered(again, |rows|) && k < |first| + |again|
    requires CutsPack(c, Entries(rows), first) && CutsPack(c, Entries(rows), again)
    requires first[0] == 0 && again[0] == 1
    ensures LearnFromAll(c.z, Around(c, Entries(rows), first, again)[..k]) == Expected(RowsBetween(rows, first, again, k))
  {
    var read := blob => LearnFrom(c.z, blob);
    MeaningIsAdditive(rows);
    ReaderUndoes(c, rows, read);
    FaultRoundTrip(read, c, Entries(rows), Meaning(rows), first, again, k);
    RowsBetweenMean(rows, first, again, k);
  }

  /** What is sent is given by the cuts from index 0 on and, after a fault, those from index 1 on. */
  lemma SentLiesBetween(c: Chunker, es: seq<Entry>)
    requires es != [] && Ends(c, es)
    ensures var (first, again) := (Cuts(c, es, 0), Cuts(c, es, 1));
            && again[0] == 1
            && (if GoodFrom(c, es, 0) then Sent(c, es) == Between(c, es, first)
                else Sent(c, es) == Around(c, es, first, again))
  {
  }

  lemma CarriedWithoutFault(c: Chunker, rows: seq<Row>, k: nat)
    requires FrameLaws(c.z) && c.health
    requires rows != [] && AllSendable(rows) && GoodFrom(c, Entries(rows), 0) && PacksFrom(c, Entries(rows), 0)
    requires k < |Cuts(c, Entries(rows), 0)|
    ensures var cuts := Cuts(c, Entries(rows), 0);
            LearnFromAll(c.z, Between(c, Entries(rows), cuts)[..k]) == Expected(rows[..cuts[k]])
  {
    PacksBetweenCuts(c, Entries(rows), 0);
    CutsRoundTrip(c, rows, Cuts(c, Entries(rows), 0), k);
  }

  lemma CarriedAroundFault(c: Chunker, rows: seq<Row>, k: nat)
    requires FrameLaws(c.z) && c.health
    requires rows != [] && AllSendable(rows) && PacksFrom(c, Entries(rows), 0) && PacksFrom(c, Entries(rows), 1)
    requires k < |Cuts(c, Entries(rows), 0)| + |Cuts(c, Entries(rows), 1)|
    ensures var (first, again) := (Cuts(c, Entries(rows), 0), Cuts(c, Entries(rows), 1));
            LearnFromAll(c.z, Around(c, Entries(rows), first, again)[..k]) == Expected(RowsBetween(rows, first, again, k))
  {
    PacksBetweenCuts(c, Entries(rows), 0);
    PacksBetweenCuts(c, Entries(rows), 1);
    TwoCutsRoundTrip(c, rows, Cuts(c, Entries(rows), 0), Cuts(c, Entries(rows), 1), k);
  }

  /** What the first `k` blobs of a result teach. */
  lemma CarriedRoundTrip(c: Chunker, rows: seq<Row>, k: nat)
    requires FrameLaws(c.z) && c.health
    requires rows != [] && AllSendable(rows) && Ends(c, Entries(rows)) && Packs(c, Entries(rows))
    requires k <= |Sent(c, Entries(rows))|
    ensures LearnFromAll(c.z, Sent(c, Entries(rows))[..k]) == Expected(Carried(c, rows, k))
  {
    if GoodFrom(c, Entries(rows), 0) {
      CarriedWhole(c, rows, k);
    } else {
      CarriedTwice(c, rows, k);
    }
  }

  lemma CarriedWhole(c: Chunker, rows: seq<Row>, k: nat)
    requires FrameLaws(c.z) && c.health
    requires rows != [] && AllSendable(rows) && GoodFrom(c, Entries(rows), 0) && Packs(c, Entries(rows))
    requires k <= |Sent(c, Entries(rows))|
    ensures LearnFromAll(c.z, Sent(c, Entries(rows))[..k]) == Expected(Carried(c, rows, k))
  {
    FirstOfSent(c, Entries(rows), k);
    CarriedWithoutFault(c, rows, k);
  }

  lemma CarriedTwice(c: Chunker, rows: seq<Row>, k: nat)
    requires FrameLaws(c.z) && c.health
    requires rows != [] && AllSendable(rows) && Packs(c, Entries(rows))
    requires !GoodFrom(c, Entries(rows), 0) && GoodFrom(c, Entries(rows), 1)
    requires k <= |Sent(c, Entries(rows))|
    ensures LearnFromAll(c.z, Sent(c, Entries(rows))[..k]) == Expected(Carried(c, rows, k))
  {
    FirstOfSent(c, Entries(rows), k);
    CarriedAroundFault(c, rows, k);
  }

  lemma FirstOfSent(c: Chunker, es: seq<Entry>, k: nat)
    requires es != [] && Ends(c, es) && k <= |Sent(c, es)|
    ensures var (first, again) := (Cuts(c, es, 0), Cuts(c, es, 1));
            if GoodFrom(c, es, 0) then k < |first| && Sent(c, es)[..k] == Between(c, es, first)[..k]
            else k < |first| + |again| && Sent(c, es)[..k] == Around(c, es, first, again)[..k]
  {
    SentLiesBetween(c, es);
  }

  lemma RowsBetweenMean(rows: seq<Row>, first: seq<nat>, again: seq<nat>, k: nat)
    requires Ordered(first, |rows|) && Ordered(again, |rows|) && k < |first| + |again| && again[0] == 1
    ensures var n := |first| - 1;
            Expected(RowsBetween(rows, first, again, k)) ==
            if k <= n then Meaning(rows)(0, first[k])
            else Join(Meaning(rows)(0, first[n]), Meaning(rows)(1, again[k - n - 1]))
  {
    var n := |first| - 1;
    if k <= n {
      FirstMeans(rows, first[k]);
    } else {
      NotBefore(again, |rows|, k - n - 1);
      BothMean(rows, first[n], again[k - n - 1]);
    }
  }

  lemma FirstMeans(rows: seq<Row>, a: nat)
    requires a <= |rows|
    ensures Meaning(rows)(0, a) == Expected(rows[..a])
  {
    assert rows[0..a] == rows[..a];
  }

  lemma BothMean(rows: seq<Row>, a: nat, b: nat)
    requires a <= |rows| && 1 <= b <= |rows|
    ensures Join(Meaning(rows)(0, a), Meaning(rows)(1, b)) == Expected(rows[..a] + rows[1..b])
  {
    FirstMeans(rows, a);
    ExpectedJoin(rows[..a], rows[1..b]);
  }

  /**
   * From one peer's rows to another peer's payloads: the receiver learns exactly the rows of the first
   * PACKETS_LIMIT chunks, in order and each with its own health; and it learns all that was sent if and only if
   * this was sent in at most PACKETS_LIMIT chunks. Without a fault, that is the result itself.
   */
  lemma GossipRoundTrip(c: Chunker, rows: seq<Row>)
    requires FrameLaws(c.z) && c.health
    requires rows != [] && AllSendable(rows) && Ends(c, Entries(rows)) && Packs(c, Entries(rows))
    ensures var sent := Sent(c, Entries(rows));
            var learned := LearnFromAll(c.z, FirstPackets(sent));
            && learned == Expected(Carried(c, rows, Taken(sent)))
            && Tells(learned, Carried(c, rows, Taken(sent)))
            && (learned == Expected(Carried(c, rows, |sent|)) <==> |sent| <= PACKETS_LIMIT)
            && (GoodFrom(c, Entries(rows), 0) ==> Carried(c, rows, |sent|) == rows)
  {
    var sent := Sent(c, Entries(rows));
    TakenAreFirst(sent);
    CarriedRoundTrip(c, rows, Taken(sent));
    ExpectedTells(Carried(c, rows, Taken(sent)));
    AllCarriedIff(c, rows);
    if GoodFrom(c, Entries(rows), 0) {
      WholeIsCarried(c, rows);
    }
  }

  lemma WholeIsCarried(c: Chunker, rows: seq<Row>)
    requires rows != [] && AllSendable(rows) && GoodFrom(c, Entries(rows), 0)
    ensures Carried(c, rows, |Sent(c, Entries(rows))|) == rows
  {
    SentLiesBetween(c, Entries(rows));
    assert rows[..|rows|] == rows;
  }

  lemma TakenAreFirst(sent: seq<Bytes>)
    ensures Taken(sent) <= |sent| && FirstPackets(sent) == sent[..Taken(sent)]
  {
  }

  /** Every blob but the last of the whole result leaves out rows that are still to come. */
  lemma AllCarriedIff(c: Chunker, rows: seq<Row>)
    requires rows != [] && AllSendable(rows) && Ends(c, Entries(rows))
    ensures var sent := Sent(c, Entries(rows));
            Expected(Carried(c, rows, Taken(sent))) == Expected(Carried(c, rows, |sent|)) <==> |sent| <= PACKETS_LIMIT
  {
    var sent := Sent(c, Entries(rows));
    if |sent| > PACKETS_LIMIT {
      FewerAreCarried(c, rows, PACKETS_LIMIT);
      ShorterDiffers(Carried(c, rows, PACKETS_LIMIT), Carried(c, rows, |sent|));
    }
  }

  lemma ShorterDiffers(some: seq<Row>, more: seq<Row>)
    requires |some| < |more|
    ensures Expected(some) != Expected(more)
  {
    assert |Expected(some).payloads| == |some| && |Expected(more).payloads| == |more|;
  }

  lemma FewerAreCarried(c: Chunker, rows: seq<Row>, k: nat)
    requires rows != [] && AllSendable(rows) && Ends(c, Entries(rows)) && k < |Sent(c, Entries(rows))|
    ensures |Carried(c, rows, k)| < |Carried(c, rows, |Sent(c, Entries(rows))|)|
  {
    var es := Entries(rows);
    SentLiesBetween(c, es);
    if GoodFrom(c, es, 0) {
      FewerBeforeEnd(rows, Cuts(c, es, 0), k);
    } else {
      FaultIsLater(c, es);
      FewerAroundFault(rows, Cuts(c, es, 0), Cuts(c, es, 1), k);
    }
  }

  lemma FewerBeforeEnd(rows: seq<Row>, cuts: seq<nat>, k: nat)
    requires Ordered(cuts, |rows|) && k < |cuts| - 1
    ensures |rows[..cuts[k]]| < |rows[..cuts[|cuts| - 1]]|
  {
  }

  lemma FewerAroundFault(rows: seq<Row>, first: seq<nat>, again: seq<nat>, k: nat)
    requires Ordered(first, |rows|) && Ordered(again, |rows|) && again[0] == 1 < again[|again| - 1]
    requires k < |first| + |again| - 1
    ensures |RowsBetween(rows, first, again, k)| < |RowsBetween(rows, first, again, |first| + |again| - 1)|
  {
    var n := |first| - 1;
    if k <= n {
      NotAfter(first, |rows|, k);
    } else {
      assert again[k - n - 1] < again[|again| - 1];
    }
  }

  lemma NotAfter(cuts: seq<nat>, n: nat, k: nat)
    requires Ordered(cuts, n) && k < |cuts|
    ensures cuts[k] <= cuts[|cuts| - 1]
  {
  }

  predicate LastIsUnlike(rows: seq<Row>) {
    rows != [] && rows[|rows| - 1] !in rows[..|rows| - 1]
  }

  /** A last row that is like no other arrives if and only if the result was sent in at most PACKETS_LIMIT chunks. */
  lemma LastRowArrivesIff(c: Chunker, rows: seq<Row>)
    requires AllSendable(rows) && LastIsUnlike(rows) && Ends(c, Entries(rows))
    ensures LastArrives(c, rows) <==> |Sent(c, Entries(rows))| <= PACKETS_LIMIT
  {
    if |Sent(c, Entries(rows))| <= PACKETS_LIMIT {
      LastRowIsNotLost(c, rows);
    } else {
      LastRowIsMissing(c, rows);
    }
  }

  predicate LastArrives(c: Chunker, rows: seq<Row>)
    requires rows != [] && AllSendable(rows) && Ends(c, Entries(rows))
  {
    rows[|rows| - 1] in Carried(c, rows, Taken(Sent(c, Entries(rows))))
  }

  lemma LastRowIsNotLost(c: Chunker, rows: seq<Row>)
    requires rows != [] && AllSendable(rows) && Ends(c, Entries(rows)) && |Sent(c, Entries(rows))| <= PACKETS_LIMIT
    ensures LastArrives(c, rows)
  {
    NothingIsLost(c, rows, |rows| - 1);
  }

  lemma LastRowIsMissing(c: Chunker, rows: seq<Row>)
    requires AllSendable(rows) && LastIsUnlike(rows) && Ends(c, Entries(rows)) && |Sent(c, Entries(rows))| > PACKETS_LIMIT
    ensures !LastArrives(c, rows)
  {
    LastRowIsLate(c, rows, PACKETS_LIMIT);
  }

  lemma LastRowIsLate(c: Chunker, rows: seq<Row>, k: nat)
    requires AllSendable(rows) && LastIsUnlike(rows) && Ends(c, Entries(rows)) && k < |Sent(c, Entries(rows))|
    ensures rows[|rows| - 1] !in Carried(c, rows, k)
  {
    var es := Entries(rows);
    SentLiesBetween(c, es);
    if GoodFrom(c, es, 0) {
      NotInFront(rows, Cuts(c, es, 0)[k]);
    } else {
      FaultIsLater(c, es);
      NotAroundFault(rows, Cuts(c, es, 0), Cuts(c, es, 1), k);
    }
  }

  lemma NotInFront(rows: seq<Row>, a: nat)
    requires a < |rows| && rows[|rows| - 1] !in rows[..|rows| - 1]
    ensures rows[|rows| - 1] !in rows[..a]
    ensures a >= 1 ==> rows[|rows| - 1] !in rows[1..a]
  {
    assert forall i :: 0 <= i < a ==> rows[i] == rows[..|rows| - 1][i];
  }

  lemma NotAroundFault(rows: seq<Row>, first: seq<nat>, again: seq<nat>, k: nat)
    requires Ordered(first, |rows|) && Ordered(again, |rows|) && again[0] == 1
    requires first[|first| - 1] < |rows| == again[|again| - 1] && k < |first| + |again| - 1
    requires rows != [] && rows[|rows| - 1] !in rows[..|rows| - 1]
    ensures rows[|rows| - 1] !in RowsBetween(rows, first, again, k)
  {
    var n := |first| - 1;
    NotInFront(rows, first[n]);
    if k <= n {
      NotAfter(first, |rows|, k);
      NotInFront(rows, first[k]);
    } else {
      NotBefore(again, |rows|, k - n - 1);
      assert again[k - n - 1] < again[|again| - 1];
      NotInFront(rows, again[k - n - 1]);
    }
  }

  function Taken(sent: seq<Bytes>): nat {
    if |sent| <= PACKETS_LIMIT then |sent| else PACKETS_LIMIT
  }

  /** Whether there is a fault or not, a result that arrives in full brings every row. */
  lemma NothingIsLost(c: Chunker, rows: seq<Row>, i: nat)
    requires rows != [] && AllSendable(rows) && Ends(c, Entries(rows)) && i < |rows|
    ensures rows[i] in Carried(c, rows, |Sent(c, Entries(rows))|)
  {
    if GoodFrom(c, Entries(rows), 0) {
      WholeIsCarried(c, rows);
    } else {
      var first := Cuts(c, Entries(rows), 0);
      FaultIsLater(c, Entries(rows));
      TwiceIsCarried(c, rows);
      InEitherPart(rows, first[|first| - 1], i);
    }
  }

  lemma TwiceIsCarried(c: Chunker, rows: seq<Row>)
    requires rows != [] && AllSendable(rows) && !GoodFrom(c, Entries(rows), 0) && GoodFrom(c, Entries(rows), 1)
    ensures var first := Cuts(c, Entries(rows), 0);
            Carried(c, rows, |Sent(c, Entries(rows))|) == rows[..first[|first| - 1]] + rows[1..|rows|]
  {
    SentLiesBetween(c, Entries(rows));
    WholeAround(rows, Cuts(c, Entries(rows), 0), Cuts(c, Entries(rows), 1));
  }

  lemma WholeAround(rows: seq<Row>, first: seq<nat>, again: seq<nat>)
    requires Ordered(first, |rows|) && Ordered(again, |rows|) && again[0] == 1 && again[|again| - 1] == |rows|
    requires rows != []
    ensures RowsBetween(rows, first, again, |first| + |again| - 1) == rows[..first[|first| - 1]] + rows[1..|rows|]
  {
  }

  /** Entry 0 never makes the fault. */
  lemma FaultIsLater(c: Chunker, es: seq<Entry>)
    requires es != []
    ensures var cuts := Cuts(c, es, 0); cuts[|cuts| - 1] > 0
  {
    ProgressIff(c, es, 0);
    assert Cuts(c, es, 0) == [0] + Cuts(c, es, c.End(es, 0, 0));
  }

  lemma InEitherPart(rows: seq<Row>, fault: nat, i: nat)
    requires 0 < fault <= |rows| && i < |rows|
    ensures rows[i] in rows[..fault] + rows[1..|rows|]
  {
    var all := rows[..fault] + rows[1..|rows|];
    if i == 0 {
      assert all[0] == rows[0];
    } else {
      assert all[fault + i - 1] == rows[i];
    }
  }

  /** An empty result is answered, with one archive that holds nothing. */
  lemma EmptyResultIsAnswered(c: Chunker)
    ensures Sent(c, []) == [[0x04, 0x22, 0x4d, 0x18, 0x40, 0x40, 0xc0, 0, 0, 0, 0]]
  {
  }

  /** The answer to an empty result teaches nothing. */
  lemma EmptyArchive(z: Compressor)
    requires z.decompress(LZ4_EMPTY_ARCHIVE) == Some(([], []))
    ensures LearnFrom(z, LZ4_EMPTY_ARCHIVE) == NOTHING_LEARNED
  {
    assert ReadAll([], 0) == Ok([]);
  }

  /** The receiver's policy takes the row. */
  predicate Wanted(policy: Policy, row: Row) {
    var (key, signature) := (Fit(row.publicKey, 64), WireSignature(row));
    && !(policy.skipPersonal && key == policy.myKey)
    && ((key == Zeros(64) && signature == Zeros(64)) || policy.validSignature(Wire(row)))
  }

  /** The table has the row: a free-for-all one by its infohash or the id made of it, a signed one by key and id. */
  predicate HasRow(nodes: seq<Node>, row: Row) {
    var (key, infohash) := (Fit(row.publicKey, 64), Fit(row.infohash, 20));
    exists i :: 0 <= i < |nodes| &&
      if key == Zeros(64) then
        nodes[i].infohash == infohash || (nodes[i].publicKey == [] && nodes[i].id == InfohashToId(infohash))
      else nodes[i].publicKey == key && nodes[i].id == row.id
  }

  /** Its signature stands in another row, which is what keeps a signed row out. */
  predicate SignatureElsewhere(nodes: seq<Node>, row: Row) {
    && Fit(row.publicKey, 64) != Zeros(64)
    && exists i :: 0 <= i < |nodes| && nodes[i].signature == Some(WireSignature(row))
  }

  lemma WantedIsAcceptable(policy: Policy, row: Row)
    ensures Wanted(policy, row) <==> Acceptable(policy, Wire(row))
  {
    WireNames(row);
  }

  lemma CoveredHasRow(nodes: seq<Node>, row: Row)
    ensures Covered(nodes, Wire(row)) ==> HasRow(nodes, row)
    ensures Clashed(nodes, Wire(row)) ==> SignatureElsewhere(nodes, row)
  {
    WireNames(row);
    if Covered(nodes, Wire(row)) {
      var i :| 0 <= i < |nodes| && Covers(nodes[i], Wire(row));
      assert nodes[i] == nodes[i];
    }
    if Clashed(nodes, Wire(row)) {
      var i :| 0 <= i < |nodes| && Clashes(nodes[i], Wire(row));
      assert nodes[i].signature == Some(WireSignature(row));
    }
  }

  /**
   * Every row that arrives and that the receiver's policy takes is in its table afterwards, whatever the table held
   * before, unless its signature stands there already; also when the result does not arrive in full.
   */
  lemma ArrivedRowIsStored(c: Chunker, rows: seq<Row>, row: Row, policy: Policy, nodes: seq<Node>)
    requires FrameLaws(c.z) && c.health
    requires rows != [] && AllSendable(rows) && Ends(c, Entries(rows)) && Packs(c, Entries(rows))
    requires row in Carried(c, rows, Taken(Sent(c, Entries(rows))))
    requires Consistent(nodes) && Wanted(policy, row)
    ensures var learned := LearnFromAll(c.z, FirstPackets(Sent(c, Entries(rows))));
            var after := MergeEach(policy, nodes, learned.payloads).0;
            HasRow(after, row) || SignatureElsewhere(after, row)
  {
    PayloadsAreWired(c, rows);
    WiredIsStored(Carried(c, rows, Taken(Sent(c, Entries(rows)))), row, policy, nodes);
  }

  /** So a result of at most PACKETS_LIMIT chunks brings all its rows that the policy takes. */
  lemma SmallResultIsStored(c: Chunker, rows: seq<Row>, i: nat, policy: Policy, nodes: seq<Node>)
    requires FrameLaws(c.z) && c.health
    requires AllSendable(rows) && Ends(c, Entries(rows)) && Packs(c, Entries(rows))
    requires i < |rows| && |Sent(c, Entries(rows))| <= PACKETS_LIMIT
    requires Consistent(nodes) && Wanted(policy, rows[i])
    ensures var learned := LearnFromAll(c.z, FirstPackets(Sent(c, Entries(rows))));
            var after := MergeEach(policy, nodes, learned.payloads).0;
            HasRow(after, rows[i]) || SignatureElsewhere(after, rows[i])
  {
    NothingIsLost(c, rows, i);
    ArrivedRowIsStored(c, rows, rows[i], policy, nodes);
  }

  lemma WiredAreShaped(rows: seq<Row>)
    ensures AllWireShaped(WireAll(rows))
  {
    forall k | 0 <= k < |rows|
      ensures WireShaped(WireAll(rows)[k])
    {
      WireNames(rows[k]);
    }
  }

  lemma WiredIsStored(rows: seq<Row>, row: Row, policy: Policy, nodes: seq<Node>)
    requires row in rows && Consistent(nodes) && Wanted(policy, row)
    ensures var after := MergeEach(policy, nodes, WireAll(rows)).0; HasRow(after, row) || SignatureElsewhere(after, row)
  {
    WiredAreShaped(rows);
    WantedIsAcceptable(policy, row);
    var i :| 0 <= i < |rows| && rows[i] == row;
    MergeStores(policy, nodes, WireAll(rows), i);
    CoveredHasRow(MergeEach(policy, nodes, WireAll(rows)).0, row);
  }

  /** A table row made of this row. */
  predicate MadeOf(node: Node, row: Row) {
    && Says(node.payload, row) && node.infohash == Fit(row.infohash, 20)
    && if Fit(row.publicKey, 64) == Zeros(64) then
         node.publicKey == [] && node.id == InfohashToId(Fit(row.infohash, 20)) && node.signature == None
       else
         node.publicKey == Fit(row.publicKey, 64) && node.id == row.id && node.signature == Some(WireSignature(row))
  }

  /** Made of one of these rows, and that one is taken by the policy. */
  predicate MadeOfWanted(policy: Policy, node: Node, rows: seq<Row>) {
    exists k :: 0 <= k < |rows| && Wanted(policy, rows[k]) && MadeOf(node, rows[k])
  }

  /** Nothing else comes into the table: each new row is made of a row that arrived and that the policy takes. */
  lemma NewRowHasArrived(c: Chunker, rows: seq<Row>, policy: Policy, nodes: seq<Node>, i: nat)
    requires FrameLaws(c.z) && c.health
    requires rows != [] && AllSendable(rows) && Ends(c, Entries(rows)) && Packs(c, Entries(rows))
    requires var learned := LearnFromAll(c.z, FirstPackets(Sent(c, Entries(rows))));
             |nodes| <= i < |MergeEach(policy, nodes, learned.payloads).0|
    ensures var sent := Sent(c, Entries(rows));
            var after := MergeEach(policy, nodes, LearnFromAll(c.z, FirstPackets(sent)).payloads).0;
            MadeOfWanted(policy, after[i], Carried(c, rows, Taken(sent)))
  {
    PayloadsAreWired(c, rows);
    StoredFromWired(Carried(c, rows, Taken(Sent(c, Entries(rows)))), policy, nodes, i);
  }

  lemma PayloadsAreWired(c: Chunker, rows: seq<Row>)
    requires FrameLaws(c.z) && c.health
    requires rows != [] && AllSendable(rows) && Ends(c, Entries(rows)) && Packs(c, Entries(rows))
    ensures var sent := Sent(c, Entries(rows));
            LearnFromAll(c.z, FirstPackets(sent)).payloads == WireAll(Carried(c, rows, Taken(sent)))
  {
    var sent := Sent(c, Entries(rows));
    TakenAreFirst(sent);
    CarriedRoundTrip(c, rows, Taken(sent));
  }

  lemma StoredFromWired(rows: seq<Row>, policy: Policy, nodes: seq<Node>, i: nat)
    requires |nodes| <= i < |MergeEach(policy, nodes, WireAll(rows)).0|
    ensures MadeOfWanted(policy, MergeEach(policy, nodes, WireAll(rows)).0[i], rows)
  {
    var node := MergeEach(policy, nodes, WireAll(rows)).0[i];
    MergeStoresOnly(policy, nodes, WireAll(rows), i);
    var k :| 0 <= k < |rows| && Acceptable(policy, WireAll(rows)[k]) && StoredAs(node, WireAll(rows)[k]);
    WantedIsAcceptable(policy, rows[k]);
    StoredIsMadeOf(node, rows[k]);
  }

  lemma StoredIsMadeOf(node: Node, row: Row)
    requires StoredAs(node, Wire(row))
    ensures MadeOf(node, row)
  {
    WireNames(row);
  }
}
