/**
 * The self-delimiting wire format of signed payloads: a list of typed fields
 * followed by a 64-byte signature, read one after another from a buffer.
 */
module PayloadCodec {
  import opened Binary
  import opened Outcomes

  /** The field formats in use: "H", "I", "Q" (Unsigned), "64s" (Fixed), and "varlenI" or "varlenIutf8" (VarLen). */
  datatype Format = Unsigned(width: nat) | Fixed(size: nat) | VarLen

  datatype Value = Num(n: nat) | Raw(data: Bytes)

  datatype WireError = StructError | UnknownBlobType

  const SIGNATURE_SIZE: nat := 64
  const REGULAR_TORRENT: nat := 300
  const CHANNEL_TORRENT: nat := 400

  // ---------------------------------------------------------------- single fields

  /** "20s" and "64s" cut a longer value and pad a shorter one with zero bytes. */
  function Fit(data: Bytes, size: nat): (r: Bytes)
    ensures |r| == size
  {
    if |data| >= size then data[..size] else data + Zeros(size - |data|)
  }

  function PackField(f: Format, v: Value): Result<Bytes, WireError> {
    match (f, v)
    case (Unsigned(w), Num(n)) => if n < Range(w) then Ok(BigEndian(n, w)) else Err(StructError)
    case (Fixed(size), Raw(d)) => Ok(Fit(d, size))
    case (VarLen, Raw(d)) => if |d| < Range(4) then Ok(BigEndian(|d|, 4) + d) else Err(StructError)
    case _ => Err(StructError)
  }

  function UnpackField(f: Format, data: Bytes, offset: nat): (r: Result<(Value, nat), WireError>)
    ensures r.Ok? ==> offset <= r.value.1
  {
    match f
    case Unsigned(w) =>
      if offset + w > |data| then Err(StructError)
      else Ok((Num(FromBigEndian(data[offset..offset + w])), offset + w))
    case Fixed(size) =>
      if offset + size > |data| then Err(StructError)
      else Ok((Raw(data[offset..offset + size]), offset + size))
    case VarLen =>
      if offset + 4 > |data| then Err(StructError)
      else
        var size := FromBigEndian(data[offset..offset + 4]);
        Ok((Raw(Slice(data, offset + 4, offset + 4 + size)), offset + 4 + size))
  }

  /** The value that the reader sees after the writer packed `v`. */
  function Fitted(f: Format, v: Value): Value {
    if f.Fixed? && v.Raw? then Raw(Fit(v.data, f.size)) else v
  }

  /** The bytes stand in the buffer from this position on. */
  predicate StandsAt(bs: Bytes, all: Bytes, at: nat) {
    at + |bs| <= |all| && all[at..at + |bs|] == bs
  }

  lemma StandsSplit(a: Bytes, b: Bytes, all: Bytes, at: nat)
    requires StandsAt(a + b, all, at)
    ensures StandsAt(a, all, at) && StandsAt(b, all, at + |a|)
  {
    var part := all[at..at + |a + b|];
    assert a == part[..|a|] && b == part[|a|..];
  }

  lemma ReadVarLen(size: Bytes, data: Bytes, all: Bytes, at: nat)
    requires |size| == 4 && FromBigEndian(size) == |data|
    requires StandsAt(size, all, at) && StandsAt(data, all, at + 4)
    ensures UnpackField(VarLen, all, at) == Ok((Raw(data), at + 4 + |data|))
  {
  }

  lemma UnpackPackedField(f: Format, v: Value, bs: Bytes, all: Bytes, at: nat)
    requires PackField(f, v) == Ok(bs) && StandsAt(bs, all, at)
    ensures UnpackField(f, all, at) == Ok((Fitted(f, v), at + |bs|))
  {
    match f {
      case Unsigned(w) =>
        BigEndianRoundTrip(v.n, w);
        assert all[at..at + w] == BigEndian(v.n, w);
      case Fixed(_) =>
      case VarLen =>
        BigEndianRoundTrip(|v.data|, 4);
        StandsSplit(BigEndian(|v.data|, 4), v.data, all, at);
        ReadVarLen(BigEndian(|v.data|, 4), v.data, all, at);
    }
  }

  // ---------------------------------------------------------------- field lists

  function Pack(fs: seq<Format>, vs: seq<Value>): Result<Bytes, WireError> {
    if |fs| != |vs| then Err(StructError)
    else if fs == [] then Ok([])
    else
      var head := PackField(fs[0], vs[0]);
      if head.Err? then Err(head.error)
      else
        var tail := Pack(fs[1..], vs[1..]);
        if tail.Err? then tail else Ok(head.value + tail.value)
  }

  function Unpack(fs: seq<Format>, data: Bytes, offset: nat): (r: Result<(seq<Value>, nat), WireError>)
    ensures r.Ok? ==> |r.value.0| == |fs| && offset <= r.value.1
  {
    if fs == [] then Ok(([], offset))
    else
      var head := UnpackField(fs[0], data, offset);
      if head.Err? then Err(head.error)
      else
        var tail := Unpack(fs[1..], data, head.value.1);
        if tail.Err? then tail else Ok(([head.value.0] + tail.value.0, tail.value.1))
  }

  function FittedAll(fs: seq<Format>, vs: seq<Value>): (r: seq<Value>)
    requires |fs| == |vs|
    ensures |r| == |vs|
    ensures forall i :: 0 <= i < |vs| ==> r[i] == Fitted(fs[i], vs[i])
  {
    seq(|vs|, i requires 0 <= i < |vs| => Fitted(fs[i], vs[i]))
  }

  lemma FittedStep(fs: seq<Format>, vs: seq<Value>)
    requires |fs| == |vs| > 0
    ensures FittedAll(fs, vs) == [Fitted(fs[0], vs[0])] + FittedAll(fs[1..], vs[1..])
  {
  }

  /** The first field of a packed list and the rest of it. */
  lemma PackStep(fs: seq<Format>, vs: seq<Value>) returns (head: Bytes, tail: Bytes)
    requires fs != [] && Pack(fs, vs).Ok?
    ensures PackField(fs[0], vs[0]) == Ok(head) && Pack(fs[1..], vs[1..]) == Ok(tail)
    ensures Pack(fs, vs) == Ok(head + tail)
  {
    head, tail := PackField(fs[0], vs[0]).value, Pack(fs[1..], vs[1..]).value;
  }

  lemma UnpackStep(fs: seq<Format>, all: Bytes, at: nat, head: Value, next: nat, tail: seq<Value>, end: nat)
    requires fs != [] && UnpackField(fs[0], all, at) == Ok((head, next))
    requires Unpack(fs[1..], all, next) == Ok((tail, end))
    ensures Unpack(fs, all, at) == Ok(([head] + tail, end))
  {
  }

  lemma {:induction false} UnpackStanding(fs: seq<Format>, vs: seq<Value>, bs: Bytes, all: Bytes, at: nat)
    requires Pack(fs, vs) == Ok(bs) && StandsAt(bs, all, at)
    ensures Unpack(fs, all, at) == Ok((FittedAll(fs, vs), at + |bs|))
    decreases fs
  {
    if fs == [] {
      assert FittedAll(fs, vs) == [];
    } else {
      var head, tail := PackStep(fs, vs);
      StandsSplit(head, tail, all, at);
      UnpackPackedField(fs[0], vs[0], head, all, at);
      UnpackStanding(fs[1..], vs[1..], tail, all, at + |head|);
      UnpackStep(fs, all, at, Fitted(fs[0], vs[0]), at + |head|, FittedAll(fs[1..], vs[1..]), at + |bs|);
      FittedStep(fs, vs);
    }
  }

  /** Packed fields are read back wherever they stand in a buffer. */
  lemma UnpackPacked(fs: seq<Format>, vs: seq<Value>, pre: Bytes, post: Bytes)
    requires Pack(fs, vs).Ok?
    ensures var bs := Pack(fs, vs).value;
            Unpack(fs, pre + bs + post, |pre|) == Ok((FittedAll(fs, vs), |pre| + |bs|))
  {
    UnpackStanding(fs, vs, Pack(fs, vs).value, pre + Pack(fs, vs).value + post, |pre|);
  }

  // ---------------------------------------------------------------- payload classes

  const SIGNED_FORMAT := [Unsigned(2), Unsigned(2), Fixed(64)]
  const NODE_FORMAT := SIGNED_FORMAT + [Unsigned(8), Unsigned(8), Unsigned(8)]
  const TORRENT_FORMAT := NODE_FORMAT + [Fixed(20), Unsigned(8), Unsigned(4), VarLen, VarLen, VarLen]

  /** The payload class registered for a metadata type, as its list of field formats. */
  function PayloadFormat(metadataType: nat): (r: Option<seq<Format>>)
    ensures r.Some? ==> |r.value| >= 3 && r.value[0] == Unsigned(2)
  {
    if metadataType == REGULAR_TORRENT then Some(TORRENT_FORMAT)
    else if metadataType == CHANNEL_TORRENT then Some(TORRENT_FORMAT + [Unsigned(8), Unsigned(8)])
    else if metadataType == 220 then Some(NODE_FORMAT + [VarLen, VarLen] + [Unsigned(8)])
    else if metadataType == 241 then Some(NODE_FORMAT + [VarLen, VarLen])
    else if metadataType == 231 then Some(NODE_FORMAT + [VarLen])
    else if metadataType == 500 then Some(SIGNED_FORMAT + [Fixed(64)])
    else None
  }

  /** A payload as it came off the wire; `values` follows the format list of its class. */
  datatype Payload = Payload(metadataType: nat, values: seq<Value>, signature: Bytes) {

    /** Instances of TorrentMetadataPayload and of its subclass; other classes are deprecated. */
    predicate IsTorrentKind() {
      metadataType == REGULAR_TORRENT || metadataType == CHANNEL_TORRENT
    }

    function RawAt(i: nat): Bytes {
      if i < |values| && values[i].Raw? then values[i].data else []
    }

    function NumAt(i: nat): nat {
      if i < |values| && values[i].Num? then values[i].n else 0
    }

    // The names of TorrentMetadataPayload, in their order.

    function ReservedFlags(): nat { NumAt(1) }

    function PublicKey(): Bytes { RawAt(2) }

    function Id(): nat { NumAt(3) }

    function OriginId(): nat { NumAt(4) }

    function Timestamp(): nat { NumAt(5) }

    function Infohash(): Bytes { RawAt(6) }

    function Size(): nat { NumAt(7) }

    function TorrentDate(): nat { NumAt(8) }

    function Title(): Bytes { RawAt(9) }

    function Tags(): Bytes { RawAt(10) }

    function TrackerInfo(): Bytes { RawAt(11) }
  }

  function ReadPayload(data: Bytes, offset: nat): (r: Result<(Payload, nat), WireError>)
    ensures r.Ok? ==> offset + SIGNATURE_SIZE <= r.value.1
  {
    if offset + 2 > |data| then Err(StructError)
    else
      var metadataType := FromBigEndian(data[offset..offset + 2]);
      var format := PayloadFormat(metadataType);
      if format.None? then Err(UnknownBlobType)
      else
        var fields := Unpack(format.value, data, offset);
        if fields.Err? then Err(fields.error)
        else
          var (values, end) := fields.value;
          Ok((Payload(metadataType, values, Slice(data, end, end + SIGNATURE_SIZE)), end + SIGNATURE_SIZE))
  }

  /** Payloads read so far, followed by the outcome for the rest of the buffer. */
  function Then(done: seq<Payload>, rest: Result<seq<Payload>, WireError>): Result<seq<Payload>, WireError> {
    if rest.Ok? then Ok(done + rest.value) else rest
  }

  /** The torrent payloads from `offset` to the end of the buffer; the other known kinds are dropped. */
  function ReadAll(data: Bytes, offset: nat): Result<seq<Payload>, WireError>
    decreases |data| - offset
  {
    if offset >= |data| then Ok([])
    else
      var r := ReadPayload(data, offset);
      if r.Err? then Err(r.error)
      else
        var rest := ReadAll(data, r.value.1);
        if r.value.0.IsTorrentKind() then Then([r.value.0], rest) else rest
  }

  /** The kinds that are read on, those that are skipped, and what ends the reading: by the number in front. */
  lemma KindDecides(data: Bytes, offset: nat)
    requires offset + 2 <= |data| && ReadPayload(data, offset).Ok?
    ensures var (kind, p, end) := (FromBigEndian(data[offset..offset + 2]), ReadPayload(data, offset).value.0,
                                   ReadPayload(data, offset).value.1);
            && p.metadataType == kind && kind in {300, 400, 220, 241, 231, 500}
            && ReadAll(data, offset) ==
               if kind == 300 || kind == 400 then Then([p], ReadAll(data, end)) else ReadAll(data, end)
  {
  }

  /** A number of no known kind, or fewer than two bytes, is an error, and one payload in error spoils all. */
  lemma UnknownKindFails(data: Bytes, offset: nat)
    requires offset < |data|
    ensures offset + 2 > |data| ==> ReadAll(data, offset) == Err(StructError)
    ensures offset + 2 <= |data| && FromBigEndian(data[offset..offset + 2]) !in {300, 400, 220, 241, 231, 500} ==>
      ReadAll(data, offset) == Err(UnknownBlobType)
  {
  }

  lemma ThenStep(done: seq<Payload>, p: Payload, rest: Result<seq<Payload>, WireError>)
    ensures Then(done, Then([p], rest)) == Then(done + [p], rest)
  {
    if rest.Ok? {
      assert done + ([p] + rest.value) == done + [p] + rest.value;
    }
  }

  lemma ThenFromNothing(rest: Result<seq<Payload>, WireError>)
    ensures Then([], rest) == rest
  {
    if rest.Ok? {
      assert [] + rest.value == rest.value;
    }
  }

  /** The offset-driven reading loop; it ends because every payload moves the offset on by at least 64. */
  method ReadPayloads(data: Bytes) returns (r: Result<seq<Payload>, WireError>)
    ensures r == ReadAll(data, 0)
  {
    var offset := 0;
    var payloads := [];
    ThenFromNothing(ReadAll(data, 0));
    while offset < |data|
      invariant ReadAll(data, 0) == Then(payloads, ReadAll(data, offset))
      decreases |data| - offset
    {
      var next := ReadPayload(data, offset);
      if next.Err? {
        return Err(next.error);
      }
      ThenStep(payloads, next.value.0, ReadAll(data, next.value.1));
      offset := next.value.1;
      if next.value.0.IsTorrentKind() {
        payloads := payloads + [next.value.0];
      }
    }
    assert payloads + [] == payloads;
    r := Ok(payloads);
  }
}
