/** Rows of the torrent metadata table and the signed payloads they are sent as. */
module TorrentRows {
  import opened Binary
  import opened Outcomes
  import opened PayloadCodec
  import opened TextFields

  /** Strings are held as their UTF-8 bytes, the torrent date as seconds since the epoch. */
  datatype Row = Row(
    reservedFlags: nat, publicKey: Bytes, id: nat, originId: nat, timestamp: nat,
    infohash: Bytes, size: nat, torrentDate: nat, title: Bytes, tags: Bytes, trackerInfo: Bytes,
    signature: Option<Bytes>, health: Option<Triple>)

  function Fields(row: Row): seq<Value> {
    [Num(REGULAR_TORRENT), Num(row.reservedFlags), Raw(row.publicKey),
     Num(row.id), Num(row.originId), Num(row.timestamp),
     Raw(row.infohash), Num(row.size), Num(row.torrentDate), Raw(row.title), Raw(row.tags), Raw(row.trackerInfo)]
  }

  /** A row without a signature (a free-for-all entry) is sent with 64 zero bytes in its place. */
  function WireSignature(row: Row): Bytes {
    if row.signature.Some? then row.signature.value else Zeros(SIGNATURE_SIZE)
  }

  function Serialized(row: Row): Result<Bytes, WireError> {
    var fields := Pack(TORRENT_FORMAT, Fields(row));
    if fields.Err? then fields else Ok(fields.value + WireSignature(row))
  }

  /** The payload the receiver should see: keys and hashes cut or zero-padded to their fixed sizes. */
  function Wire(row: Row): Payload {
    Payload(REGULAR_TORRENT, FittedAll(TORRENT_FORMAT, Fields(row)), WireSignature(row))
  }

  /** Every number fits its field, every string its length prefix, and the signature has its fixed size. */
  predicate Sendable(row: Row) {
    Serialized(row).Ok? && |WireSignature(row)| == SIGNATURE_SIZE
  }

  lemma PackedStartsWithType(row: Row)
    requires Serialized(row).Ok?
    ensures |Serialized(row).value| >= 2
    ensures Serialized(row).value[..2] == BigEndian(REGULAR_TORRENT, 2)
  {
    var fs := TORRENT_FORMAT;
    assert fs[0] == Unsigned(2);
    assert PackField(fs[0], Fields(row)[0]).value == BigEndian(REGULAR_TORRENT, 2);
  }

  lemma TypeIsPeeked(row: Row, pre: Bytes, post: Bytes)
    requires Serialized(row).Ok?
    ensures var (bs, at) := (Serialized(row).value, |pre|);
            |bs| >= 2 && FromBigEndian((pre + bs + post)[at..at + 2]) == REGULAR_TORRENT
  {
    var bs := Serialized(row).value;
    PackedStartsWithType(row);
    assert (pre + bs + post)[|pre|..|pre| + 2] == bs[..2];
    BigEndianRoundTrip(REGULAR_TORRENT, 2);
  }

  lemma Regroup(a: Bytes, b: Bytes, c: Bytes)
    ensures a + (b + c) == a + b + c
  {
  }

  lemma StandsInFront(pre: Bytes, bs: Bytes, sig: Bytes, post: Bytes)
    ensures StandsAt(bs, pre + (bs + sig) + post, |pre|)
    ensures Slice(pre + (bs + sig) + post, |pre| + |bs|, |pre| + |bs| + |sig|) == sig
  {
  }

  lemma {:induction false} UnpackInFront(fs: seq<Format>, vs: seq<Value>, pre: Bytes, sig: Bytes, post: Bytes)
    requires Pack(fs, vs).Ok?
    ensures var (bs, data) := (Pack(fs, vs).value, pre + (Pack(fs, vs).value + sig) + post);
            && Unpack(fs, data, |pre|) == Ok((FittedAll(fs, vs), |pre| + |bs|))
            && Slice(data, |pre| + |bs|, |pre| + |bs| + |sig|) == sig
  {
    var bs := Pack(fs, vs).value;
    var data := pre + (bs + sig) + post;
    StandsInFront(pre, bs, sig, post);
    UnpackStanding(fs, vs, bs, data, |pre|);
  }

  lemma FieldsAreRead(row: Row, pre: Bytes, post: Bytes)
    requires Sendable(row)
    ensures var (bs, end) := (Serialized(row).value, |pre| + |Serialized(row).value| - SIGNATURE_SIZE);
            && end >= 0
            && Unpack(TORRENT_FORMAT, pre + bs + post, |pre|) == Ok((Wire(row).values, end))
            && Slice(pre + bs + post, end, end + SIGNATURE_SIZE) == Wire(row).signature
  {
    UnpackInFront(TORRENT_FORMAT, Fields(row), pre, WireSignature(row), post);
  }

  lemma PayloadIsRead(data: Bytes, at: nat, values: seq<Value>, end: nat)
    requires at + 2 <= |data| && FromBigEndian(data[at..at + 2]) == REGULAR_TORRENT
    requires Unpack(TORRENT_FORMAT, data, at) == Ok((values, end))
    ensures ReadPayload(data, at) ==
            Ok((Payload(REGULAR_TORRENT, values, Slice(data, end, end + SIGNATURE_SIZE)), end + SIGNATURE_SIZE))
  {
  }

  /** A serialized row is read back, with its signature, wherever it stands in the buffer. */
  lemma ReadSerialized(row: Row, pre: Bytes, post: Bytes)
    requires Sendable(row)
    ensures var bs := Serialized(row).value;
            ReadPayload(pre + bs + post, |pre|) == Ok((Wire(row), |pre| + |bs|))
  {
    var bs := Serialized(row).value;
    TypeIsPeeked(row, pre, post);
    FieldsAreRead(row, pre, post);
    PayloadIsRead(pre + bs + post, |pre|, Wire(row).values, |pre| + |bs| - SIGNATURE_SIZE);
  }

  /** Under every name, the payload has what the row has; keys and hashes are cut or padded to their fixed sizes. */
  predicate Says(p: Payload, row: Row) {
    && p.metadataType == REGULAR_TORRENT
    && p.ReservedFlags() == row.reservedFlags
    && p.PublicKey() == Fit(row.publicKey, 64)
    && p.Id() == row.id
    && p.OriginId() == row.originId
    && p.Timestamp() == row.timestamp
    && p.Infohash() == Fit(row.infohash, 20)
    && p.Size() == row.size
    && p.TorrentDate() == row.torrentDate
    && p.Title() == row.title
    && p.Tags() == row.tags
    && p.TrackerInfo() == row.trackerInfo
    && p.signature == if row.signature.Some? then row.signature.value else Zeros(64)
  }

  lemma WireNames(row: Row)
    ensures Says(Wire(row), row)
  {
    var fs := TORRENT_FORMAT;
    assert fs[2] == Fixed(64) && fs[6] == Fixed(20);
  }

  /** What is read where a row was written says what the row says, and ends where the row ended. */
  lemma ReadSaysRow(row: Row, pre: Bytes, post: Bytes)
    requires Sendable(row)
    ensures var bs := Serialized(row).value;
            var read := ReadPayload(pre + bs + post, |pre|);
            read.Ok? && Says(read.value.0, row) && read.value.1 == |pre| + |bs|
  {
    ReadSerialized(row, pre, post);
    WireNames(row);
  }

  /** The fields of a row as they stand on the wire, one behind the other. */
  function Layout(row: Row): seq<Bytes> {
    [BigEndian(300, 2), BigEndian(row.reservedFlags, 2), Fit(row.publicKey, 64),
     BigEndian(row.id, 8), BigEndian(row.originId, 8), BigEndian(row.timestamp, 8),
     Fit(row.infohash, 20), BigEndian(row.size, 8), BigEndian(row.torrentDate, 4),
     BigEndian(|row.title|, 4) + row.title, BigEndian(|row.tags|, 4) + row.tags,
     BigEndian(|row.trackerInfo|, 4) + row.trackerInfo]
  }

  predicate PacksTo(fs: seq<Format>, vs: seq<Value>, parts: seq<Bytes>) {
    |fs| == |vs| == |parts| && forall i :: 0 <= i < |fs| ==> PackField(fs[i], vs[i]) == Ok(parts[i])
  }

  lemma {:induction false} PackIsConcat(fs: seq<Format>, vs: seq<Value>, parts: seq<Bytes>)
    requires PacksTo(fs, vs, parts)
    ensures Pack(fs, vs) == Ok(Concat(parts))
    decreases |fs|
  {
    if fs != [] {
      PackIsConcat(fs[1..], vs[1..], parts[1..]);
    }
  }

  lemma {:induction false} PackedFields(fs: seq<Format>, vs: seq<Value>, i: nat)
    requires Pack(fs, vs).Ok? && i < |fs|
    ensures |fs| == |vs| && PackField(fs[i], vs[i]).Ok?
    decreases |fs|
  {
    if i > 0 {
      PackedFields(fs[1..], vs[1..], i - 1);
    }
  }

  /** The bytes of a row: its fields in this order and with these sizes, and its signature. */
  lemma SerializedLayout(row: Row)
    requires Sendable(row)
    ensures Serialized(row).value == Concat(Layout(row)) + WireSignature(row)
  {
    FieldsPack(row);
    PackIsConcat(TORRENT_FORMAT, Fields(row), Layout(row));
  }

  lemma FieldsPack(row: Row)
    requires Serialized(row).Ok?
    ensures PacksTo(TORRENT_FORMAT, Fields(row), Layout(row))
  {
    var (fs, vs) := (TORRENT_FORMAT, Fields(row));
    forall i | 0 <= i < |fs|
      ensures PackField(fs[i], vs[i]).Ok?
    {
      PackedFields(fs, vs, i);
    }
  }

  predicate AllSendable(rows: seq<Row>) {
    forall i :: 0 <= i < |rows| ==> Sendable(rows[i])
  }

  function Blobs(rows: seq<Row>): (xs: seq<Bytes>)
    requires AllSendable(rows)
    ensures |xs| == |rows|
    ensures forall i :: 0 <= i < |rows| ==> xs[i] == Serialized(rows[i]).value
  {
    seq(|rows|, i requires 0 <= i < |rows| => Serialized(rows[i]).value)
  }

  function WireAll(rows: seq<Row>): (ps: seq<Payload>)
    ensures |ps| == |rows|
    ensures forall i :: 0 <= i < |rows| ==> ps[i] == Wire(rows[i])
  {
    seq(|rows|, i requires 0 <= i < |rows| => Wire(rows[i]))
  }

  lemma ReadStep(data: Bytes, at: nat, p: Payload, end: nat)
    requires at < |data| && ReadPayload(data, at) == Ok((p, end)) && p.metadataType == REGULAR_TORRENT
    ensures ReadAll(data, at) == Then([p], ReadAll(data, end))
  {
    assert p.IsTorrentKind();
  }

  lemma ReadOneMore(row: Row, pre: Bytes, rest: Bytes)
    requires Sendable(row)
    ensures var bs := Serialized(row).value;
            ReadAll(pre + (bs + rest), |pre|) == Then([Wire(row)], ReadAll(pre + bs + rest, |pre + bs|))
  {
    var bs := Serialized(row).value;
    PackedStartsWithType(row);
    ReadSerialized(row, pre, rest);
    Regroup(pre, bs, rest);
    ReadStep(pre + bs + rest, |pre|, Wire(row), |pre + bs|);
  }

  /** A run of serialized rows is read back row by row, with nothing left over. */
  lemma {:induction false} ReadAllSerialized(rows: seq<Row>, pre: Bytes)
    requires AllSendable(rows)
    ensures ReadAll(pre + Concat(Blobs(rows)), |pre|) == Ok(WireAll(rows))
    decreases |rows|
  {
    if rows == [] {
      assert pre + Concat(Blobs(rows)) == pre;
      assert WireAll(rows) == [];
    } else {
      var tail := rows[1..];
      assert Blobs(rows)[1..] == Blobs(tail);
      assert Concat(Blobs(rows)) == Blobs(rows)[0] + Concat(Blobs(tail));
      ReadOneMore(rows[0], pre, Concat(Blobs(tail)));
      ReadAllSerialized(tail, pre + Blobs(rows)[0]);
      assert WireAll(rows) == [Wire(rows[0])] + WireAll(tail);
    }
  }
}
