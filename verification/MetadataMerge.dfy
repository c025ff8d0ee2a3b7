/** Merging received payloads into the table of known torrents, one payload at a time. */
module MetadataMerge {
  import opened Binary
  import opened Outcomes
  import opened PayloadCodec

  /** A stored entry; a free-for-all entry has an empty key and no signature. The row id is the index in the table. */
  datatype Node = Node(publicKey: Bytes, id: nat, infohash: Bytes, signature: Option<Bytes>, payload: Payload) {
    predicate FreeForAll() { publicKey == [] }
  }

  /** The local key, the signature check, and whether payloads under the local key are skipped. */
  datatype Policy = Policy(myKey: Bytes, validSignature: Payload -> bool, skipPersonal: bool)

  datatype Report = NewObject(rowid: nat) | DuplicateObject(rowid: nat)

  /** The outcome for one payload: the new table and what is reported, or a violated database constraint. */
  datatype Step = Done(nodes: seq<Node>, reports: seq<Report>) | ConstraintError

  const NULL_KEY: Bytes := Zeros(64)
  const NULL_SIG: Bytes := Zeros(64)

  /** The first eight bytes as a signed integer, without its sign. */
  function InfohashToId(infohash: Bytes): (id: nat)
    ensures id <= Range(8) / 2
  {
    FromBigEndianInRange(Fit(infohash, 8));
    var n := FromBigEndian(Fit(infohash, 8));
    if n >= Range(8) / 2 then Range(8) - n else n
  }

  predicate HasSignature(p: Payload) {
    p.PublicKey() != NULL_KEY || p.signature != NULL_SIG
  }

  /** Own torrents, deprecated kinds and bad signatures are dropped without a report. */
  predicate Accepts(policy: Policy, p: Payload) {
    && !(policy.skipPersonal && p.PublicKey() == policy.myKey)
    && p.metadataType == REGULAR_TORRENT
    && (HasSignature(p) ==> policy.validSignature(p))
  }

  predicate IsFreeForAll(p: Payload) {
    p.PublicKey() == NULL_KEY
  }

  /** The torrent is known, or its free-for-all id is taken. */
  predicate BlocksFreeForAll(nodes: seq<Node>, infohash: Bytes) {
    exists i :: 0 <= i < |nodes|
      && (nodes[i].infohash == infohash || (nodes[i].id == InfohashToId(infohash) && nodes[i].publicKey == []))
  }

  /** The row with this key and id, or the table's length. */
  function Find(nodes: seq<Node>, publicKey: Bytes, id: nat): (i: nat)
    ensures i <= |nodes|
    ensures i < |nodes| ==> nodes[i].publicKey == publicKey && nodes[i].id == id
    ensures forall k :: 0 <= k < i ==> nodes[k].publicKey != publicKey || nodes[k].id != id
  {
    if nodes == [] then 0
    else if nodes[0].publicKey == publicKey && nodes[0].id == id then 0
    else 1 + Find(nodes[1..], publicKey, id)
  }

  predicate SignatureTaken(nodes: seq<Node>, signature: Bytes) {
    exists i :: 0 <= i < |nodes| && nodes[i].signature == Some(signature)
  }

  function FreeForAllNode(p: Payload): Node {
    Node([], InfohashToId(p.Infohash()), p.Infohash(), None, p)
  }

  function SignedNode(p: Payload): Node {
    Node(p.PublicKey(), p.Id(), p.Infohash(), Some(p.signature), p)
  }

  function Inserted(nodes: seq<Node>, node: Node): Step {
    Done(nodes + [node], [NewObject(|nodes|)])
  }

  /** process_payload; the table's unique signature column is what a signed insertion can violate. */
  function Process(policy: Policy, nodes: seq<Node>, p: Payload): Step {
    if !Accepts(policy, p) then Done(nodes, [])
    else if IsFreeForAll(p) then
      if BlocksFreeForAll(nodes, p.Infohash()) then Done(nodes, []) else Inserted(nodes, FreeForAllNode(p))
    else
      var i := Find(nodes, p.PublicKey(), p.Id());
      if i < |nodes| then Done(nodes, [DuplicateObject(i)])
      else if SignatureTaken(nodes, p.signature) then ConstraintError
      else Inserted(nodes, SignedNode(p))
  }

  /** Payloads one after another, each in a transaction of its own: a failed one leaves the table as it was. */
  function MergeEach(policy: Policy, nodes: seq<Node>, ps: seq<Payload>): (seq<Node>, seq<Report>) {
    if ps == [] then (nodes, [])
    else
      var (before, reports) := MergeEach(policy, nodes, ps[..|ps| - 1]);
      var step := Process(policy, before, ps[|ps| - 1]);
      if step.ConstraintError? then (before, reports) else (step.nodes, reports + step.reports)
  }

  // ---------------------------------------------------------------- what is stored

  /** A regular torrent, no skipped own one, and validly signed unless it has neither key nor signature. */
  predicate Acceptable(policy: Policy, p: Payload) {
    && p.metadataType == 300
    && !(policy.skipPersonal && p.PublicKey() == policy.myKey)
    && ((p.PublicKey() == Zeros(64) && p.signature == Zeros(64)) || policy.validSignature(p))
  }

  /** The row the payload would be stored as. */
  predicate StoredAs(node: Node, p: Payload) {
    && node.infohash == p.Infohash() && node.payload == p
    && if p.PublicKey() == Zeros(64) then
         node.publicKey == [] && node.id == InfohashToId(p.Infohash()) && node.signature == None
       else
         node.publicKey == p.PublicKey() && node.id == p.Id() && node.signature == Some(p.signature)
  }

  /** This row is the payload's own, by the infohash or id of a free-for-all entry, or by key and id. */
  predicate Covers(node: Node, p: Payload) {
    if p.PublicKey() == Zeros(64) then
      node.infohash == p.Infohash() || (node.publicKey == [] && node.id == InfohashToId(p.Infohash()))
    else node.publicKey == p.PublicKey() && node.id == p.Id()
  }

  /** This row takes the signature of a signed payload. */
  predicate Clashes(node: Node, p: Payload) {
    p.PublicKey() != Zeros(64) && node.signature == Some(p.signature)
  }

  predicate Covered(nodes: seq<Node>, p: Payload) {
    exists i :: 0 <= i < |nodes| && Covers(nodes[i], p)
  }

  predicate Clashed(nodes: seq<Node>, p: Payload) {
    exists i :: 0 <= i < |nodes| && Clashes(nodes[i], p)
  }

  /** The table has one more row, the payload's own, and it is reported as new. */
  predicate GrownBy(nodes: seq<Node>, step: Step, p: Payload) {
    && step.Done? && |step.nodes| == |nodes| + 1 && step.nodes[..|nodes|] == nodes
    && StoredAs(step.nodes[|nodes|], p) && step.reports == [NewObject(|nodes|)]
  }

  lemma ProcessUnacceptable(policy: Policy, nodes: seq<Node>, p: Payload)
    ensures Accepts(policy, p) <==> Acceptable(policy, p)
    ensures !Acceptable(policy, p) ==> Process(policy, nodes, p) == Done(nodes, [])
  {
  }

  lemma ProcessFreeForAll(policy: Policy, nodes: seq<Node>, p: Payload)
    requires Acceptable(policy, p) && p.PublicKey() == Zeros(64)
    ensures var step := Process(policy, nodes, p);
            if Covered(nodes, p) then step == Done(nodes, [])
            else GrownBy(nodes, step, p)
  {
    forall i | 0 <= i < |nodes|
      ensures Covers(nodes[i], p) <==>
        (nodes[i].infohash == p.Infohash() || (nodes[i].id == InfohashToId(p.Infohash()) && nodes[i].publicKey == []))
    {
    }
  }

  lemma FindIffCovered(nodes: seq<Node>, p: Payload)
    requires p.PublicKey() != Zeros(64)
    ensures Find(nodes, p.PublicKey(), p.Id()) < |nodes| <==> Covered(nodes, p)
  {
    var i := Find(nodes, p.PublicKey(), p.Id());
    if i < |nodes| {
      assert Covers(nodes[i], p);
    }
  }

  lemma TakenIffClashed(nodes: seq<Node>, p: Payload)
    requires p.PublicKey() != Zeros(64)
    ensures SignatureTaken(nodes, p.signature) <==> Clashed(nodes, p)
  {
    forall i | 0 <= i < |nodes|
      ensures Clashes(nodes[i], p) <==> nodes[i].signature == Some(p.signature)
    {
    }
  }

  lemma ProcessSigned(policy: Policy, nodes: seq<Node>, p: Payload)
    requires Acceptable(policy, p) && p.PublicKey() != Zeros(64)
    ensures var step := Process(policy, nodes, p);
            if Covered(nodes, p) then
              exists i :: 0 <= i < |nodes| && Covers(nodes[i], p) && step == Done(nodes, [DuplicateObject(i)])
            else if Clashed(nodes, p) then step == ConstraintError
            else GrownBy(nodes, step, p)
  {
    FindIffCovered(nodes, p);
    TakenIffClashed(nodes, p);
  }

  /**
   * The table grows if and only if the payload is acceptable, has no row yet, and its signature is free; and then
   * by exactly its own row, which is reported as new. A constraint is violated if and only if the payload would be
   * stored but for its signature.
   */
  lemma ProcessStoresIff(policy: Policy, nodes: seq<Node>, p: Payload)
    ensures var step := Process(policy, nodes, p);
            && (step.ConstraintError? <==> Acceptable(policy, p) && !Covered(nodes, p) && Clashed(nodes, p))
            && (step.Done? && step.nodes != nodes <==>
                  Acceptable(policy, p) && !Covered(nodes, p) && !Clashed(nodes, p))
            && (step.Done? && step.nodes != nodes ==> GrownBy(nodes, step, p))
  {
    if !Acceptable(policy, p) {
      ProcessUnacceptable(policy, nodes, p);
    } else if p.PublicKey() == Zeros(64) {
      ProcessFreeForAll(policy, nodes, p);
    } else {
      ProcessSigned(policy, nodes, p);
    }
  }

  /** The id of a free-for-all entry: the first eight bytes as a signed integer, without its sign. */
  lemma InfohashToIdIs(infohash: Bytes)
    requires |infohash| >= 8
    ensures var (u, id) := (FromBigEndian(infohash[..8]), InfohashToId(infohash));
            (id == u || id + u == 0x1_0000_0000_0000_0000) && id <= 0x8000_0000_0000_0000
  {
    FromBigEndianInRange(infohash[..8]);
    assert Range(8) == 0x1_0000_0000_0000_0000 by {
      assert Range(4) == 0x1_0000_0000;
    }
  }

  // ---------------------------------------------------------------- what every step keeps

  /** Keys of received payloads fill their fixed-size field, so none is the empty key of a free-for-all entry. */
  predicate WireShaped(p: Payload) {
    |p.PublicKey()| == 64
  }

  predicate Consistent(nodes: seq<Node>) {
    && (forall i, j :: 0 <= i < j < |nodes| ==> nodes[i].publicKey != nodes[j].publicKey || nodes[i].id != nodes[j].id)
    && (forall i, j :: 0 <= i < j < |nodes| && nodes[i].signature.Some? ==> nodes[i].signature != nodes[j].signature)
    && (forall i :: 0 <= i < |nodes| ==> (nodes[i].FreeForAll() <==> nodes[i].signature.None?))
    && (forall i :: 0 <= i < |nodes| && nodes[i].FreeForAll() ==> nodes[i].id == InfohashToId(nodes[i].infohash))
  }

  /** No two free-for-all entries share an infohash, nor even an id derived from one. */
  lemma OneFreeForAllPerInfohash(nodes: seq<Node>, i: nat, j: nat)
    requires Consistent(nodes)
    requires i < |nodes| && j < |nodes| && nodes[i].FreeForAll() && nodes[j].FreeForAll()
    requires nodes[i].infohash == nodes[j].infohash
    ensures i == j
  {
  }

  /**
   * A step appends at most one entry and reports it as new exactly then; entries already there stay where and
   * what they are; and (key, id), signatures and free-for-all ids stay unique.
   */
  lemma ProcessKeepsTable(policy: Policy, nodes: seq<Node>, p: Payload)
    requires Consistent(nodes) && WireShaped(p)
    requires Process(policy, nodes, p).Done?
    ensures var step := Process(policy, nodes, p);
            && Consistent(step.nodes)
            && nodes <= step.nodes
            && |step.nodes| <= |nodes| + 1
            && (NewObject(|nodes|) in step.reports <==> step.nodes != nodes)
            && (forall r :: r in step.reports ==> r.rowid < |step.nodes|)
  {
    var step := Process(policy, nodes, p);
    if step.nodes != nodes {
      var node := step.nodes[|nodes|];
      if IsFreeForAll(p) {
        assert forall k :: 0 <= k < |nodes| ==>
          nodes[k].infohash != p.Infohash() && (nodes[k].id != InfohashToId(p.Infohash()) || nodes[k].publicKey != []);
      } else {
        assert forall k :: 0 <= k < |nodes| ==> nodes[k].signature != node.signature;
      }
    }
  }

  // ---------------------------------------------------------------- every sequence of payloads

  predicate AllWireShaped(ps: seq<Payload>) {
    forall i :: 0 <= i < |ps| ==> WireShaped(ps[i])
  }

  /** After any sequence of payloads the table is consistent and begins with all earlier entries, unaltered. */
  lemma {:induction false} MergeKeepsTable(policy: Policy, nodes: seq<Node>, ps: seq<Payload>)
    requires Consistent(nodes) && AllWireShaped(ps)
    ensures Consistent(MergeEach(policy, nodes, ps).0)
    ensures nodes <= MergeEach(policy, nodes, ps).0
    decreases |ps|
  {
    if ps != [] {
      MergeKeepsTable(policy, nodes, ps[..|ps| - 1]);
      var before := MergeEach(policy, nodes, ps[..|ps| - 1]).0;
      if Process(policy, before, ps[|ps| - 1]).Done? {
        ProcessKeepsTable(policy, before, ps[|ps| - 1]);
      }
    }
  }

  /** The table has nothing more to learn from this payload. */
  predicate Known(policy: Policy, nodes: seq<Node>, p: Payload) {
    var step := Process(policy, nodes, p);
    step.ConstraintError? || (step.nodes == nodes && forall r :: r in step.reports ==> r.DuplicateObject?)
  }

  lemma ProcessMakesKnown(policy: Policy, nodes: seq<Node>, p: Payload)
    requires Process(policy, nodes, p).Done?
    ensures Known(policy, Process(policy, nodes, p).nodes, p)
  {
    var after := Process(policy, nodes, p).nodes;
    if after != nodes {
      var node := after[|nodes|];
      assert IsFreeForAll(p) ==> node.infohash == p.Infohash();
      assert !IsFreeForAll(p) ==> node.publicKey == p.PublicKey() && node.id == p.Id();
    }
  }

  lemma KnownStaysKnown(policy: Policy, nodes: seq<Node>, more: seq<Node>, p: Payload)
    requires nodes <= more && Known(policy, nodes, p)
    ensures Known(policy, more, p)
  {
    if Accepts(policy, p) {
      if IsFreeForAll(p) {
        var i :| 0 <= i < |nodes|
          && (nodes[i].infohash == p.Infohash() || (nodes[i].id == InfohashToId(p.Infohash()) && nodes[i].publicKey == []));
        assert more[i] == nodes[i];
      } else {
        var i := Find(nodes, p.PublicKey(), p.Id());
        if i < |nodes| {
          assert more[i] == nodes[i];
        } else {
          var k :| 0 <= k < |nodes| && nodes[k].signature == Some(p.signature);
          assert more[k] == nodes[k];
        }
      }
    }
  }

  lemma {:induction false} MergeMakesKnown(policy: Policy, nodes: seq<Node>, ps: seq<Payload>, k: nat)
    requires Consistent(nodes) && AllWireShaped(ps) && k < |ps|
    ensures Known(policy, MergeEach(policy, nodes, ps).0, ps[k])
    decreases |ps|
  {
    var (init, last) := (ps[..|ps| - 1], ps[|ps| - 1]);
    var before := MergeEach(policy, nodes, init).0;
    MergeKeepsTable(policy, nodes, init);
    var step := Process(policy, before, last);
    if step.Done? {
      ProcessKeepsTable(policy, before, last);
      ProcessMakesKnown(policy, before, last);
    }
    if k < |init| {
      MergeMakesKnown(policy, nodes, init, k);
      KnownStaysKnown(policy, before, MergeEach(policy, nodes, ps).0, ps[k]);
    }
  }

  /** Known payloads are those that are not acceptable, have their row, or find their signature taken. */
  lemma KnownIff(policy: Policy, nodes: seq<Node>, p: Payload)
    ensures Known(policy, nodes, p) <==> (Acceptable(policy, p) ==> Covered(nodes, p) || Clashed(nodes, p))
  {
    ProcessStoresIff(policy, nodes, p);
    if !Acceptable(policy, p) {
      ProcessUnacceptable(policy, nodes, p);
    } else if Covered(nodes, p) {
      if p.PublicKey() == Zeros(64) {
        ProcessFreeForAll(policy, nodes, p);
      } else {
        ProcessSigned(policy, nodes, p);
      }
    }
  }

  /** After any sequence of payloads, each acceptable one has its row, or found its signature taken. */
  lemma MergeStores(policy: Policy, nodes: seq<Node>, ps: seq<Payload>, k: nat)
    requires Consistent(nodes) && AllWireShaped(ps) && k < |ps| && Acceptable(policy, ps[k])
    ensures var after := MergeEach(policy, nodes, ps).0; Covered(after, ps[k]) || Clashed(after, ps[k])
  {
    MergeMakesKnown(policy, nodes, ps, k);
    KnownIff(policy, MergeEach(policy, nodes, ps).0, ps[k]);
  }

  /** The row of a payload of this sequence that is acceptable. */
  predicate ComesFrom(policy: Policy, node: Node, ps: seq<Payload>) {
    exists k :: 0 <= k < |ps| && Acceptable(policy, ps[k]) && StoredAs(node, ps[k])
  }

  lemma ComesFromMore(policy: Policy, node: Node, ps: seq<Payload>, p: Payload)
    ensures ComesFrom(policy, node, ps) ==> ComesFrom(policy, node, ps + [p])
    ensures Acceptable(policy, p) && StoredAs(node, p) ==> ComesFrom(policy, node, ps + [p])
  {
    if ComesFrom(policy, node, ps) {
      var k :| 0 <= k < |ps| && Acceptable(policy, ps[k]) && StoredAs(node, ps[k]);
      assert (ps + [p])[k] == ps[k];
    }
    assert (ps + [p])[|ps|] == p;
  }

  /** And every row that was added is the row of an acceptable payload of the sequence. */
  lemma {:induction false} MergeStoresOnly(policy: Policy, nodes: seq<Node>, ps: seq<Payload>, i: nat)
    requires |nodes| <= i < |MergeEach(policy, nodes, ps).0|
    ensures ComesFrom(policy, MergeEach(policy, nodes, ps).0[i], ps)
    decreases |ps|
  {
    if ps != [] {
      var (init, last) := (ps[..|ps| - 1], ps[|ps| - 1]);
      var before := MergeEach(policy, nodes, init).0;
      ProcessStoresIff(policy, before, last);
      assert ps == init + [last];
      ComesFromMore(policy, MergeEach(policy, nodes, ps).0[i], init, last);
      if i < |before| {
        MergeStoresOnly(policy, nodes, init, i);
      }
    }
  }

  predicate NothingNew(reports: seq<Report>) {
    forall i :: 0 <= i < |reports| ==> reports[i].DuplicateObject?
  }

  lemma {:induction false} KnownAddsNothing(policy: Policy, nodes: seq<Node>, ps: seq<Payload>)
    requires forall k :: 0 <= k < |ps| ==> Known(policy, nodes, ps[k])
    ensures MergeEach(policy, nodes, ps).0 == nodes
    ensures NothingNew(MergeEach(policy, nodes, ps).1)
    decreases |ps|
  {
    if ps != [] {
      var init := ps[..|ps| - 1];
      assert forall k :: 0 <= k < |init| ==> init[k] == ps[k];
      KnownAddsNothing(policy, nodes, init);
      assert Known(policy, nodes, ps[|ps| - 1]);
    }
  }

  /** Processing a whole sequence again reports no new object and leaves the table as it was. */
  lemma MergeIsIdempotent(policy: Policy, nodes: seq<Node>, ps: seq<Payload>)
    requires Consistent(nodes) && AllWireShaped(ps)
    ensures var once := MergeEach(policy, nodes, ps).0;
            && MergeEach(policy, once, ps).0 == once
            && NothingNew(MergeEach(policy, once, ps).1)
  {
    var once := MergeEach(policy, nodes, ps).0;
    forall k | 0 <= k < |ps|
      ensures Known(policy, once, ps[k])
    {
      MergeMakesKnown(policy, nodes, ps, k);
    }
    KnownAddsNothing(policy, once, ps);
  }

  // ---------------------------------------------------------------- payloads off the wire

  lemma {:induction false} UnpackedKey(fs: seq<Format>, data: Bytes, offset: nat, i: nat)
    requires Unpack(fs, data, offset).Ok?
    requires i < |fs| && fs[i].Fixed?
    ensures var v := Unpack(fs, data, offset).value.0[i]; v.Raw? && |v.data| == fs[i].size
    decreases |fs|
  {
    if i > 0 {
      UnpackedKey(fs[1..], data, UnpackField(fs[0], data, offset).value.1, i - 1);
    }
  }

  lemma ReadIsWireShaped(data: Bytes, offset: nat)
    requires ReadPayload(data, offset).Ok?
    ensures WireShaped(ReadPayload(data, offset).value.0)
  {
    var fs := PayloadFormat(ReadPayload(data, offset).value.0.metadataType).value;
    assert fs[2] == Fixed(64);
    UnpackedKey(fs, data, offset, 2);
  }

  /** Whatever bytes arrive, the payloads read from them satisfy the condition the merge relies on. */
  lemma {:induction false} ReadAllIsWireShaped(data: Bytes, offset: nat)
    requires ReadAll(data, offset).Ok?
    ensures AllWireShaped(ReadAll(data, offset).value)
    decreases |data| - offset
  {
    if offset < |data| {
      ReadIsWireShaped(data, offset);
      ReadAllIsWireShaped(data, ReadPayload(data, offset).value.1);
    }
  }
}
