/** Receiving chunks: the packet limit of a request, decompression, payloads and their health. */
module ChunkReceiver {
  import opened Binary
  import opened Outcomes
  import opened PayloadCodec
  import opened TextFields
  import opened ChunkSender

  // ---------------------------------------------------------------- one chunk

  /** A health update for an infohash, as handed to process_torrent_health. */
  datatype Update = Update(infohash: Bytes, health: Triple)

  /** What a blob teaches the receiver: its torrent payloads, and the health updates applied before them. */
  datatype Learned = Learned(payloads: seq<Payload>, updates: seq<Update>)

  const NOTHING_LEARNED := Learned([], [])

  /** The health list is used only if it has one item for every payload. */
  function Updates(ps: seq<Payload>, health: seq<Triple>): (us: seq<Update>)
    ensures |us| == if |ps| == |health| then |ps| else 0
    ensures forall i :: 0 <= i < |us| ==> i < |ps| && i < |health| && us[i] == Update(ps[i].Infohash(), health[i])
  {
    if |ps| != |health| then []
    else seq(|ps|, i requires 0 <= i < |ps| => Update(ps[i].Infohash(), health[i]))
  }

  /** process_compressed_mdblob; the threaded caller turns every exception into an empty result. */
  function LearnFrom(z: Compressor, blob: Bytes): Learned {
    var plain := z.decompress(blob);
    if plain.None? then NOTHING_LEARNED
    else
      var (data, unused) := plain.value;
      var text := UnpackField(VarLen, unused, 0);
      if unused != [] && text.Err? then NOTHING_LEARNED
      else
        var payloads := ReadAll(data, 0);
        if payloads.Err? then NOTHING_LEARNED
        else
          var health := if unused == [] then [] else UnpackHealth(text.value.0.data);
          Learned(payloads.value, Updates(payloads.value, health))
  }

  /** An archive that is broken, a health text without its length, or one payload that cannot be read spoil the whole. */
  lemma BrokenBlobTeachesNothing(z: Compressor, blob: Bytes)
    requires var plain := z.decompress(blob);
             || plain.None?
             || 0 < |plain.value.1| < 4
             || ReadAll(plain.value.0, 0).Err?
    ensures LearnFrom(z, blob).payloads == [] && LearnFrom(z, blob).updates == []
  {
  }

  /** Otherwise all payloads are learnt, and health only if there are as many items as payloads. */
  lemma WholeBlobTeaches(z: Compressor, blob: Bytes)
    requires var plain := z.decompress(blob);
             && plain.Some? && (plain.value.1 == [] || |plain.value.1| >= 4)
             && ReadAll(plain.value.0, 0).Ok?
    ensures var (data, unused) := z.decompress(blob).value;
            var (ps, us) := (LearnFrom(z, blob).payloads, LearnFrom(z, blob).updates);
            && ps == ReadAll(data, 0).value
            && (us != [] ==> |us| == |ps| && unused != [])
            && (forall i :: 0 <= i < |us| ==> us[i].infohash == ps[i].Infohash() && us[i].health.NonNegative())
  {
  }

  method ProcessCompressedBlob(z: Compressor, blob: Bytes) returns (r: Learned)
    ensures r == LearnFrom(z, blob)
  {
    var plain := z.decompress(blob);
    if plain.None? {
      return NOTHING_LEARNED;
    }
    var (data, unused) := plain.value;
    var health: seq<Triple> := [];
    if unused != [] {
      var text := UnpackField(VarLen, unused, 0);
      if text.Err? {
        return NOTHING_LEARNED;
      }
      health := UnpackHealth(text.value.0.data);
    }
    var payloads := ReadPayloads(data);
    if payloads.Err? {
      return NOTHING_LEARNED;
    }
    r := Learned(payloads.value, Updates(payloads.value, health));
  }

  function Join(a: Learned, b: Learned): Learned {
    Learned(a.payloads + b.payloads, a.updates + b.updates)
  }

  /** What a reader of single blobs learns from several of them, one after another. */
  function LearnAll(read: Bytes -> Learned, blobs: seq<Bytes>): Learned {
    if blobs == [] then NOTHING_LEARNED else Join(read(blobs[0]), LearnAll(read, blobs[1..]))
  }

  function LearnFromAll(z: Compressor, blobs: seq<Bytes>): Learned {
    LearnAll(blob => LearnFrom(z, blob), blobs)
  }

  // ---------------------------------------------------------------- the packet limit

  const PACKETS_LIMIT: nat := 10

  /** A cached select request; `cached` turns false when the request is popped from the cache. */
  class SelectRequest {
    var packetsLimit: nat
    var cached: bool
    ghost var processed: seq<Bytes>

    constructor ()
      ensures packetsLimit == PACKETS_LIMIT && cached && processed == []
    {
      packetsLimit, cached := PACKETS_LIMIT, true;
      processed := [];
    }

    /** The responses this request will still process. */
    ghost function Budget(): nat
      reads this
    {
      if !cached then 0 else if packetsLimit > 1 then packetsLimit else 1
    }

    method OnResponse(z: Compressor, blob: Bytes) returns (r: Option<Learned>)
      modifies this
      ensures r == if old(Budget()) > 0 then Some(LearnFrom(z, blob)) else None
      ensures processed == if old(Budget()) > 0 then old(processed) + [blob] else old(processed)
      ensures Budget() == if old(Budget()) > 0 then old(Budget()) - 1 else 0
    {
      if !cached {
        return None;
      }
      if packetsLimit > 1 {
        packetsLimit := packetsLimit - 1;
      } else {
        cached := false;
      }
      processed := processed + [blob];
      var learned := ProcessCompressedBlob(z, blob);
      r := Some(learned);
    }
  }

  /** Responses to one request arriving one by one: exactly the first PACKETS_LIMIT of them are processed. */
  method ReceiveAll(z: Compressor, blobs: seq<Bytes>) returns (payloads: seq<Payload>, updates: seq<Update>)
    ensures Learned(payloads, updates) == LearnFromAll(z, FirstPackets(blobs))
  {
    var request := new SelectRequest();
    payloads, updates := [], [];
    var i := 0;
    ghost var read := blob => LearnFrom(z, blob);
    assert FirstPackets(blobs[..0]) == [];
    while i < |blobs|
      invariant 0 <= i <= |blobs|
      invariant request.processed == FirstPackets(blobs[..i])
      invariant request.Budget() == PACKETS_LIMIT - |request.processed|
      invariant Learned(payloads, updates) == LearnAll(read, request.processed)
    {
      LearnAppend(read, request.processed, blobs[i]);
      var learned := request.OnResponse(z, blobs[i]);
      if learned.Some? {
        payloads := payloads + learned.value.payloads;
        updates := updates + learned.value.updates;
      }
      i := i + 1;
    }
    assert blobs[..i] == blobs;
  }

  function FirstPackets(blobs: seq<Bytes>): seq<Bytes> {
    if |blobs| <= PACKETS_LIMIT then blobs else blobs[..PACKETS_LIMIT]
  }

  lemma {:induction false} LearnAppend(read: Bytes -> Learned, blobs: seq<Bytes>, blob: Bytes)
    ensures LearnAll(read, blobs + [blob]) == Join(LearnAll(read, blobs), read(blob))
  {
    if blobs == [] {
      assert blobs + [blob] == [blob];
      assert LearnAll(read, [blob][1..]) == NOTHING_LEARNED;
    } else {
      assert (blobs + [blob])[1..] == blobs[1..] + [blob];
      LearnAppend(read, blobs[1..], blob);
    }
  }

  // ---------------------------------------------------------------- readers that undo single chunks

  /** What the entries from one index up to another stand for; neighbouring ranges add up. */
  ghost predicate Additive(n: nat, meaning: (nat, nat) -> Learned) {
    && (forall a: nat :: meaning(a, a) == NOTHING_LEARNED)
    && (forall a: nat, b: nat, d: nat | a <= b <= d <= n :: Join(meaning(a, b), meaning(b, d)) == meaning(a, d))
  }

  ghost predicate Undoes(read: Bytes -> Learned, c: Chunker, es: seq<Entry>, meaning: (nat, nat) -> Learned) {
    forall a: nat, b: nat | a <= b <= |es| && PartPacks(c, es, a, b) :: read(c.Chunk(es, a, b)) == meaning(a, b)
  }

  /** From a run of blobs, such a reader learns exactly what lies between the outer cuts. */
  lemma {:induction false} RunRoundTrip(
      read: Bytes -> Learned, blobs: seq<Bytes>, n: nat, meaning: (nat, nat) -> Learned, cuts: seq<nat>)
    requires Additive(n, meaning)
    requires Ordered(cuts, n) && |blobs| == |cuts| - 1
    requires forall i :: 0 <= i < |blobs| ==> read(blobs[i]) == meaning(cuts[i], cuts[i + 1])
    ensures LearnAll(read, blobs) == meaning(cuts[0], cuts[|cuts| - 1])
    decreases |blobs|
  {
    if blobs != [] {
      RunRoundTrip(read, blobs[1..], n, meaning, cuts[1..]);
      var last := cuts[|cuts| - 1];
      assert Join(meaning(cuts[0], cuts[1]), meaning(cuts[1], last)) == meaning(cuts[0], last);
    }
  }

  lemma OneChunk(
      read: Bytes -> Learned, c: Chunker, es: seq<Entry>, meaning: (nat, nat) -> Learned, a: nat, b: nat)
    requires Undoes(read, c, es, meaning) && a <= b <= |es| && PartPacks(c, es, a, b)
    ensures read(c.Chunk(es, a, b)) == meaning(a, b)
  {
  }

  lemma OrderedPrefix(cuts: seq<nat>, n: nat, k: nat)
    requires Ordered(cuts, n) && k < |cuts|
    ensures Ordered(cuts[..k + 1], n)
  {
  }

  /** The entries carried by the first `k` chunks are those before the next cut. */
  lemma PrefixRoundTrip(
      read: Bytes -> Learned, c: Chunker, es: seq<Entry>, meaning: (nat, nat) -> Learned, cuts: seq<nat>, k: nat)
    requires Ordered(cuts, |es|) && CutsPack(c, es, cuts) && k < |cuts|
    requires Additive(|es|, meaning) && Undoes(read, c, es, meaning)
    ensures LearnAll(read, Between(c, es, cuts)[..k]) == meaning(cuts[0], cuts[k])
  {
    var (front, blobs) := (cuts[..k + 1], Between(c, es, cuts)[..k]);
    OrderedPrefix(cuts, |es|, k);
    forall i | 0 <= i < k
      ensures read(blobs[i]) == meaning(front[i], front[i + 1])
    {
      OneChunk(read, c, es, meaning, front[i], front[i + 1]);
    }
    RunRoundTrip(read, blobs, |es|, meaning, front);
  }

  /** What two runs of blobs teach, one after the other. */
  lemma {:induction false} LearnConcat(read: Bytes -> Learned, a: seq<Bytes>, b: seq<Bytes>)
    ensures LearnAll(read, a + b) == Join(LearnAll(read, a), LearnAll(read, b))
  {
    if a == [] {
      assert a + b == b;
    } else {
      assert (a + b)[1..] == a[1..] + b;
      LearnConcat(read, a[1..], b);
    }
  }

  lemma LearnAround(read: Bytes -> Learned, before: seq<Bytes>, empty: Bytes, behind: seq<Bytes>)
    requires read(empty) == NOTHING_LEARNED
    ensures LearnAll(read, before + [empty] + behind) == Join(LearnAll(read, before), LearnAll(read, behind))
  {
    LearnAppend(read, before, empty);
    LearnConcat(read, before + [empty], behind);
  }

  lemma TakeAround<T>(before: seq<T>, empty: T, behind: seq<T>, k: nat)
    requires k <= |before| + 1 + |behind|
    ensures (before + [empty] + behind)[..k] ==
            if k <= |before| then before[..k] else before + [empty] + behind[..k - |before| - 1]
  {
  }

  /** What is sent when there is a fault: an empty chunk stands between two lists of chunks. */
  function Around(c: Chunker, es: seq<Entry>, first: seq<nat>, again: seq<nat>): seq<Bytes>
    requires Ordered(first, |es|) && Ordered(again, |es|)
  {
    var fault := first[|first| - 1];
    Between(c, es, first) + [c.Chunk(es, fault, fault)] + Between(c, es, again)
  }

  /** The same when sending meets a fault: then come an empty chunk and a second list of chunks. */
  lemma FaultRoundTrip(
      read: Bytes -> Learned, c: Chunker, es: seq<Entry>, meaning: (nat, nat) -> Learned,
      first: seq<nat>, again: seq<nat>, k: nat)
    requires Ordered(first, |es|) && Ordered(again, |es|) && k < |first| + |again|
    requires CutsPack(c, es, first) && CutsPack(c, es, again)
    requires Additive(|es|, meaning) && Undoes(read, c, es, meaning)
    ensures var n := |first| - 1;
            LearnAll(read, Around(c, es, first, again)[..k]) ==
            if k <= n then meaning(first[0], first[k])
            else Join(meaning(first[0], first[n]), meaning(again[0], again[k - n - 1]))
  {
    var n := |first| - 1;
    var (before, behind) := (Between(c, es, first), Between(c, es, again));
    var empty := c.Chunk(es, first[n], first[n]);
    TakeAround(before, empty, behind, k);
    if k <= n {
      PrefixRoundTrip(read, c, es, meaning, first, k);
    } else {
      OneChunk(read, c, es, meaning, first[n], first[n]);
      LearnAround(read, before, empty, behind[..k - n - 1]);
      PrefixRoundTrip(read, c, es, meaning, first, n);
      assert before[..n] == before;
      PrefixRoundTrip(read, c, es, meaning, again, k - n - 1);
    }
  }
}
