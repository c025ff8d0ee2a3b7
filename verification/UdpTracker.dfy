/**
 * The UDP tracker protocol: sessions that connect and then scrape over one shared socket, told apart by
 * transaction ids. A coroutine is cut into steps at the points where it waits, and steps of all sessions
 * interleave with datagrams in any order.
 */
module UdpTracker {
  import opened Binary
  import opened Outcomes
  import PayloadCodec

  const ACTION_CONNECT: int := 0
  const ACTION_SCRAPE: int := 2
  const UDP_TRACKER_INIT_CONNECTION_ID: int := 0x41727101980
  const MAX_INFOHASHES_IN_SCRAPE: nat := 60

  type SessionId = nat

  /** A big-endian signed integer of `width` bytes at an offset, "!i" or "!q". */
  function SignedAt(data: Bytes, offset: nat, width: nat): (n: int)
    requires offset + width <= |data|
  {
    var u := FromBigEndian(data[offset..offset + width]);
    if 2 * u >= Range(width) then u - Range(width) else u
  }

  /** unpack_from("!i", data, 4), or None where it raises. */
  function UnpackedId(data: Bytes): Option<int> {
    if |data| < 8 then None else Some(SignedAt(data, 4, 4))
  }

  predicate PassesLengthTest(data: Bytes) {
    |data| >= 4
  }

  /** Which datagrams pass the length test and cannot be unpacked. */
  lemma UnpackRaisesIff(data: Bytes)
    ensures PassesLengthTest(data) && UnpackedId(data).None? <==> 4 <= |data| < 8
    ensures PassesLengthTest(Zeros(4)) && UnpackedId(Zeros(4)).None?
  {
  }

  /** What a scrape says about one infohash. */
  datatype Health = Health(infohash: Bytes, seeders: int, leechers: int)

  /** Where a session's coroutine stands; a reply that has been set but not yet read is kept with it. */
  datatype Phase =
    | Fresh
    | ConnectSent
    | ConnectReplied(data: Bytes)
    | Connected
    | ScrapeSent
    | ScrapeReplied(data: Bytes)
    | Finished(health: seq<Health>)
    | Failed
  {
    predicate Waiting() { ConnectSent? || ScrapeSent? }

    predicate Ended() { Finished? || Failed? }
  }

  datatype Session = Session(
    transactionId: int, connectionId: int, action: int, infohashes: seq<Bytes>, initiated: bool, phase: Phase)

  /** The class-wide ids in use, the sessions, and the socket manager's futures by transaction id. */
  datatype State = State(sessions: map<SessionId, Session>, active: map<SessionId, int>, pending: map<int, SessionId>)

  datatype Event =
    | NewSession(s: SessionId, id: int)
    | AddInfohash(s: SessionId, infohash: Bytes)
    | SendConnect(s: SessionId)
    | Datagram(data: Bytes)
    | ReadConnectReply(s: SessionId, id: int)
    | SendScrape(s: SessionId)
    | ReadScrapeReply(s: SessionId)
    | TimeOut(s: SessionId)
    | Cleanup(s: SessionId)

  // ---------------------------------------------------------------- pieces of steps

  /** Ids are drawn until one is found that no active session uses. */
  predicate Unused(st: State, id: int) {
    0 <= id < 0x8000_0000 && forall s :: s in st.active ==> st.active[s] != id
  }

  function Put(st: State, s: SessionId, session: Session): State {
    st.(sessions := st.sessions[s := session])
  }

  /** remove_transaction_id: free the session's id, and drop whatever future waits under it. */
  function Released(st: State, s: SessionId): State
    requires s in st.sessions
  {
    st.(active := st.active - {s}, pending := st.pending - {st.sessions[s].transactionId})
  }

  /** transport_received; shorter data than eight bytes is either ignored or ends in an exception. */
  function Received(st: State, data: Bytes): State {
    if |data| < 8 then st
    else
      var id := SignedAt(data, 4, 4);
      if id !in st.pending then st
      else
        var s := st.pending[id];
        var popped := st.(pending := st.pending - {id});
        if s !in st.sessions || !st.sessions[s].phase.Waiting() then popped
        else
          var phase := if st.sessions[s].phase.ConnectSent? then ConnectReplied(data) else ScrapeReplied(data);
          Put(popped, s, st.sessions[s].(phase := phase))
  }

  /** The reply carries the session's own action and id. */
  predicate Answers(session: Session, data: Bytes)
    requires |data| >= 8
  {
    SignedAt(data, 0, 4) == session.action && SignedAt(data, 4, 4) == session.transactionId
  }

  predicate GoodConnectReply(session: Session, data: Bytes) {
    |data| >= 16 && Answers(session, data)
  }

  predicate GoodScrapeReply(session: Session, data: Bytes) {
    |data| >= 8 && Answers(session, data) && |data| - 8 == |session.infohashes| * 12
  }

  /** The i-th triple of the reply, for the i-th infohash; the middle number of each triple is not used. */
  function ScrapeHealth(infohashes: seq<Bytes>, data: Bytes): (health: seq<Health>)
    requires |data| == 8 + 12 * |infohashes|
    ensures |health| == |infohashes|
    ensures forall i :: 0 <= i < |health| ==>
      health[i] == Health(infohashes[i], SignedAt(data, 8 + 12 * i, 4), SignedAt(data, 8 + 12 * i + 8, 4))
  {
    seq(|infohashes|, i requires 0 <= i < |infohashes| =>
      Health(infohashes[i], SignedAt(data, 8 + 12 * i, 4), SignedAt(data, 8 + 12 * i + 8, 4)))
  }

  // ---------------------------------------------------------------- requests

  /** A signed integer of `width` bytes, "!i" or "!q". */
  function SignedBytes(n: int, width: nat): (bs: Bytes)
    ensures |bs| == width
  {
    BigEndian(if n >= 0 then n else if n + Range(width) >= 0 then n + Range(width) else 0, width)
  }

  /** "20s" for each infohash. */
  function Fitted(infohashes: seq<Bytes>): (r: seq<Bytes>)
    ensures |r| == |infohashes|
    ensures forall i :: 0 <= i < |r| ==> r[i] == PayloadCodec.Fit(infohashes[i], 20)
  {
    seq(|infohashes|, i requires 0 <= i < |infohashes| => PayloadCodec.Fit(infohashes[i], 20))
  }

  /** The message that connect() and scrape() send: connection id, action, transaction id, and all infohashes. */
  function Request(session: Session): Bytes {
    SignedBytes(session.connectionId, 8) + SignedBytes(session.action, 4) + SignedBytes(session.transactionId, 4)
    + (if session.action == ACTION_SCRAPE then Concat(Fitted(session.infohashes)) else [])
  }

  // ---------------------------------------------------------------- steps

  /** A step whose guard does not hold changes nothing. */
  function Step(st: State, e: Event): State {
    match e
    case NewSession(s, id) =>
      if s in st.sessions || !Unused(st, id) then st
      else
        Put(st, s, Session(id, UDP_TRACKER_INIT_CONNECTION_ID, ACTION_CONNECT, [], false, Fresh))
          .(active := st.active[s := id])
    case AddInfohash(s, infohash) =>
      if s !in st.sessions || st.sessions[s].initiated || infohash in st.sessions[s].infohashes
         || |st.sessions[s].infohashes| >= MAX_INFOHASHES_IN_SCRAPE then st
      else Put(st, s, st.sessions[s].(infohashes := st.sessions[s].infohashes + [infohash]))
    case SendConnect(s) =>
      if s !in st.sessions || !st.sessions[s].phase.Fresh? then st
      else
        Put(st, s, st.sessions[s].(initiated := true, phase := ConnectSent))
          .(pending := st.pending[st.sessions[s].transactionId := s])
    case Datagram(data) => Received(st, data)
    case ReadConnectReply(s, id) =>
      if s !in st.sessions || !st.sessions[s].phase.ConnectReplied? || !Unused(st, id) then st
      else
        var (session, data) := (st.sessions[s], st.sessions[s].phase.data);
        if !GoodConnectReply(session, data) then Put(st, s, session.(phase := Failed))
        else
          Put(st, s, session.(connectionId := SignedAt(data, 8, 8), action := ACTION_SCRAPE,
                              transactionId := id, phase := Connected))
            .(active := st.active[s := id])
    case SendScrape(s) =>
      if s !in st.sessions || !st.sessions[s].phase.Connected? then st
      else
        Put(st, s, st.sessions[s].(phase := ScrapeSent)).(pending := st.pending[st.sessions[s].transactionId := s])
    case ReadScrapeReply(s) =>
      if s !in st.sessions || !st.sessions[s].phase.ScrapeReplied? then st
      else
        var (session, data) := (st.sessions[s], st.sessions[s].phase.data);
        if !GoodScrapeReply(session, data) then Put(st, s, session.(phase := Failed))
        else Released(Put(st, s, session.(phase := Finished(ScrapeHealth(session.infohashes, data)))), s)
    case TimeOut(s) =>
      if s !in st.sessions || st.sessions[s].phase.Ended() then st
      else Put(st, s, st.sessions[s].(initiated := true, phase := Failed))
    case Cleanup(s) =>
      if s !in st.sessions || !st.sessions[s].phase.Ended() then st
      else Released(Put(st, s, st.sessions[s].(infohashes := [])), s)
  }

  // ---------------------------------------------------------------- the invariant

  predicate DistinctIds(st: State) {
    forall s, t :: s in st.active && t in st.active && st.active[s] == st.active[t] ==> s == t
  }

  /** Every future waits under the id that its own session holds now. */
  predicate OwnedFutures(st: State) {
    forall id :: id in st.pending ==> st.pending[id] in st.active && st.active[st.pending[id]] == id
  }

  /** A future that is still kept belongs to a session that waits, or that failed and is not cleaned up yet. */
  predicate NeededFutures(st: State) {
    forall id :: id in st.pending ==>
      && st.pending[id] in st.sessions
      && (st.sessions[st.pending[id]].phase.Waiting() || st.sessions[st.pending[id]].phase.Failed?)
  }

  predicate HoldsItsId(st: State, s: SessionId)
    requires s in st.sessions
  {
    && (s in st.active ==> st.active[s] == st.sessions[s].transactionId)
    && (!st.sessions[s].phase.Ended() ==> s in st.active)
  }

  /** A session's own fields: distinct infohashes, the action of its phase, and only replies to its current id. */
  predicate WellFormed(session: Session) {
    && (forall i, j :: 0 <= i < j < |session.infohashes| ==> session.infohashes[i] != session.infohashes[j])
    && |session.infohashes| <= MAX_INFOHASHES_IN_SCRAPE
    && (!session.phase.Fresh? ==> session.initiated)
    && (session.phase.Fresh? || session.phase.ConnectSent? || session.phase.ConnectReplied? ==>
          session.action == ACTION_CONNECT)
    && (session.phase.Connected? || session.phase.ScrapeSent? || session.phase.ScrapeReplied? ==>
          session.action == ACTION_SCRAPE)
    && (session.phase.ConnectReplied? || session.phase.ScrapeReplied? ==>
          |session.phase.data| >= 8 && SignedAt(session.phase.data, 4, 4) == session.transactionId)
  }

  predicate Inv(st: State) {
    && DistinctIds(st) && OwnedFutures(st) && NeededFutures(st)
    && (forall s :: s in st.active ==> s in st.sessions)
    && (forall s :: s in st.sessions ==> HoldsItsId(st, s) && WellFormed(st.sessions[s]))
  }

  predicate NoFuture(st: State, s: SessionId) {
    forall id :: id in st.pending ==> st.pending[id] != s
  }

  /** Replacing one session without touching its id, the ids in use or the futures. */
  lemma PutKeepsInv(st: State, s: SessionId, session: Session)
    requires Inv(st) && s in st.sessions && WellFormed(session)
    requires session.transactionId == st.sessions[s].transactionId
    requires session.phase.Ended() || !st.sessions[s].phase.Ended()
    requires session.phase.Waiting() || session.phase.Failed? || NoFuture(st, s)
    ensures Inv(Put(st, s, session))
  {
    var t := Put(st, s, session);
    forall k | k in t.sessions
      ensures HoldsItsId(t, k) && WellFormed(t.sessions[k])
    {
      assert k != s ==> k in st.sessions && HoldsItsId(st, k) && WellFormed(st.sessions[k]);
      assert HoldsItsId(st, s);
    }
  }

  lemma ReleasedKeepsInv(st: State, s: SessionId)
    requires Inv(st) && s in st.sessions && st.sessions[s].phase.Ended()
    ensures Inv(Released(st, s))
  {
    var t := Released(st, s);
    assert HoldsItsId(st, s);
    forall k | k in t.sessions
      ensures HoldsItsId(t, k) && WellFormed(t.sessions[k])
    {
      assert HoldsItsId(st, k) && WellFormed(st.sessions[k]);
    }
  }

  /** A future put under the id that its session holds. */
  lemma PendingKeepsInv(st: State, s: SessionId)
    requires Inv(st) && s in st.active && st.sessions[s].phase.Waiting()
    ensures Inv(st.(pending := st.pending[st.active[s] := s]))
  {
    var t := st.(pending := st.pending[st.active[s] := s]);
    forall k | k in t.sessions
      ensures HoldsItsId(t, k) && WellFormed(t.sessions[k])
    {
      assert HoldsItsId(st, k) && WellFormed(st.sessions[k]);
    }
  }

  lemma PoppedKeepsInv(st: State, id: int)
    requires Inv(st)
    ensures Inv(st.(pending := st.pending - {id}))
  {
    var t := st.(pending := st.pending - {id});
    forall k | k in t.sessions
      ensures HoldsItsId(t, k) && WellFormed(t.sessions[k])
    {
      assert HoldsItsId(st, k) && WellFormed(st.sessions[k]);
    }
  }

  /** A new id, used by no session, for a session that has no future waiting. */
  lemma NewIdKeepsInv(st: State, s: SessionId, id: int, session: Session)
    requires Inv(st) && Unused(st, id) && WellFormed(session) && session.transactionId == id
    requires NoFuture(st, s)
    ensures Inv(Put(st, s, session).(active := st.active[s := id]))
  {
    var t := Put(st, s, session).(active := st.active[s := id]);
    forall k | k in t.sessions
      ensures HoldsItsId(t, k) && WellFormed(t.sessions[k])
    {
      if k != s {
        assert HoldsItsId(st, k) && WellFormed(st.sessions[k]);
      }
    }
  }

  lemma ReceivedKeepsInv(st: State, data: Bytes)
    requires Inv(st)
    ensures Inv(Received(st, data))
  {
    if |data| >= 8 && SignedAt(data, 4, 4) in st.pending {
      var id := SignedAt(data, 4, 4);
      var s := st.pending[id];
      var popped := st.(pending := st.pending - {id});
      PoppedKeepsInv(st, id);
      assert NoFuture(popped, s);
      assert HoldsItsId(st, s) && WellFormed(st.sessions[s]);
      if st.sessions[s].phase.ConnectSent? {
        PutKeepsInv(popped, s, st.sessions[s].(phase := ConnectReplied(data)));
      } else if st.sessions[s].phase.ScrapeSent? {
        PutKeepsInv(popped, s, st.sessions[s].(phase := ScrapeReplied(data)));
      }
    }
  }

  lemma SendKeepsInv(st: State, s: SessionId, session: Session)
    requires Inv(st) && s in st.sessions && !st.sessions[s].phase.Ended()
    requires WellFormed(session) && session.phase.Waiting()
    requires session.transactionId == st.sessions[s].transactionId
    ensures Inv(Put(st, s, session).(pending := st.pending[session.transactionId := s]))
  {
    assert HoldsItsId(st, s);
    PutKeepsInv(st, s, session);
    PendingKeepsInv(Put(st, s, session), s);
  }

  lemma ReadConnectKeepsInv(st: State, s: SessionId, id: int)
    requires Inv(st) && s in st.sessions && st.sessions[s].phase.ConnectReplied? && Unused(st, id)
    ensures Inv(Step(st, ReadConnectReply(s, id)))
  {
    var (session, data) := (st.sessions[s], st.sessions[s].phase.data);
    assert WellFormed(session);
    if GoodConnectReply(session, data) {
      NewIdKeepsInv(st, s, id, session.(connectionId := SignedAt(data, 8, 8), action := ACTION_SCRAPE,
                                        transactionId := id, phase := Connected));
    } else {
      PutKeepsInv(st, s, session.(phase := Failed));
    }
  }

  lemma FinishedKeepsInv(st: State, s: SessionId, health: seq<Health>)
    requires Inv(st) && s in st.sessions && st.sessions[s].phase.ScrapeReplied?
    ensures Inv(Released(Put(st, s, st.sessions[s].(phase := Finished(health))), s))
  {
    assert WellFormed(st.sessions[s]);
    PutKeepsInv(st, s, st.sessions[s].(phase := Finished(health)));
    ReleasedKeepsInv(Put(st, s, st.sessions[s].(phase := Finished(health))), s);
  }

  lemma ReadScrapeKeepsInv(st: State, s: SessionId)
    requires Inv(st) && s in st.sessions && st.sessions[s].phase.ScrapeReplied?
    ensures Inv(Step(st, ReadScrapeReply(s)))
  {
    var (session, data) := (st.sessions[s], st.sessions[s].phase.data);
    assert WellFormed(session);
    if GoodScrapeReply(session, data) {
      FinishedKeepsInv(st, s, ScrapeHealth(session.infohashes, data));
    } else {
      PutKeepsInv(st, s, session.(phase := Failed));
    }
  }

  /** A session takes an infohash as long as nothing was sent, it is new, and there are fewer than sixty. */
  lemma AddInfohashIff(st: State, s: SessionId, infohash: Bytes)
    requires s in st.sessions
    ensures var (session, t) := (st.sessions[s], Step(st, AddInfohash(s, infohash)));
            && s in t.sessions && t.active == st.active && t.pending == st.pending
            && t.sessions[s].infohashes ==
               if !session.initiated && infohash !in session.infohashes && |session.infohashes| < 60
               then session.infohashes + [infohash] else session.infohashes
  {
  }

  lemma AddInfohashKeepsWellFormed(session: Session, infohash: Bytes)
    requires WellFormed(session) && infohash !in session.infohashes && |session.infohashes| < MAX_INFOHASHES_IN_SCRAPE
    ensures WellFormed(session.(infohashes := session.infohashes + [infohash]))
  {
  }

  /**
   * Whatever the order of steps and datagrams: ids in use stay distinct, every future waits under the id its
   * session holds now, and a kept reply carries its session's id.
   */
  lemma StepKeepsInv(st: State, e: Event)
    requires Inv(st)
    ensures Inv(Step(st, e))
  {
    if Step(st, e) != st {
      match e
      case NewSession(s, id) =>
        NewIdKeepsInv(st, s, id, Session(id, UDP_TRACKER_INIT_CONNECTION_ID, ACTION_CONNECT, [], false, Fresh));
      case AddInfohash(s, infohash) =>
        AddInfohashKeepsWellFormed(st.sessions[s], infohash);
        PutKeepsInv(st, s, st.sessions[s].(infohashes := st.sessions[s].infohashes + [infohash]));
      case SendConnect(s) => SendKeepsInv(st, s, st.sessions[s].(initiated := true, phase := ConnectSent));
      case Datagram(data) => ReceivedKeepsInv(st, data);
      case ReadConnectReply(s, id) => ReadConnectKeepsInv(st, s, id);
      case SendScrape(s) => SendKeepsInv(st, s, st.sessions[s].(phase := ScrapeSent));
      case ReadScrapeReply(s) => ReadScrapeKeepsInv(st, s);
      case TimeOut(s) => PutKeepsInv(st, s, st.sessions[s].(initiated := true, phase := Failed));
      case Cleanup(s) =>
        PutKeepsInv(st, s, st.sessions[s].(infohashes := []));
        ReleasedKeepsInv(Put(st, s, st.sessions[s].(infohashes := [])), s);
    }
  }

  const INITIAL := State(map[], map[], map[])

  function Run(events: seq<Event>): (st: State)
    ensures Inv(st)
  {
    if events == [] then INITIAL
    else
      var before := Run(events[..|events| - 1]);
      StepKeepsInv(before, events[|events| - 1]);
      Step(before, events[|events| - 1])
  }

  // ---------------------------------------------------------------- datagrams

  /**
   * In every reachable state, a datagram completes at most one future: the one kept under the id in its bytes
   * 4 to 8, whose session holds exactly that id. If this session waits, it has the datagram as its reply then. No
   * other session and no other future is touched.
   */
  lemma DatagramReachesOnlyOwner(events: seq<Event>, data: Bytes)
    ensures var (st, t) := (Run(events), Received(Run(events), data));
            if |data| < 8 || SignedAt(data, 4, 4) !in st.pending then t == st
            else
              var id := SignedAt(data, 4, 4);
              var s := st.pending[id];
              && s in st.sessions && st.sessions[s].transactionId == id && s in st.active && st.active[s] == id
              && t.active == st.active && t.pending == st.pending - {id}
              && t.sessions.Keys == st.sessions.Keys
              && (forall k :: k in st.sessions && k != s ==> t.sessions[k] == st.sessions[k])
              && t.sessions[s] == (match st.sessions[s].phase
                                   case ConnectSent => st.sessions[s].(phase := ConnectReplied(data))
                                   case ScrapeSent => st.sessions[s].(phase := ScrapeReplied(data))
                                   case _ => st.sessions[s])
  {
    var st := Run(events);
    if |data| >= 8 && SignedAt(data, 4, 4) in st.pending {
      assert HoldsItsId(st, st.pending[SignedAt(data, 4, 4)]);
    }
  }

  /** A reply that is read always carries the session's own id, so only a wrong action makes it an error message. */
  lemma ReadReplyIsOwn(events: seq<Event>, s: SessionId)
    requires s in Run(events).sessions
    requires Run(events).sessions[s].phase.ConnectReplied? || Run(events).sessions[s].phase.ScrapeReplied?
    ensures var session := Run(events).sessions[s];
            && |session.phase.data| >= 8
            && (Answers(session, session.phase.data) <==>
                  SignedAt(session.phase.data, 0, 4) == if session.phase.ConnectReplied? then ACTION_CONNECT else ACTION_SCRAPE)
  {
    assert WellFormed(Run(events).sessions[s]);
  }

  /** Where the invariant holds, a finished scrape has one result per infohash, in order, and no infohash twice. */
  lemma ScrapeResultsMatch(st: State, s: SessionId)
    requires Inv(st) && s in st.sessions && st.sessions[s].phase.ScrapeReplied?
    requires GoodScrapeReply(st.sessions[s], st.sessions[s].phase.data)
    ensures var (session, data) := (st.sessions[s], st.sessions[s].phase.data);
            var t := Step(st, ReadScrapeReply(s));
            && s in t.sessions && t.sessions[s].phase.Finished?
            && var health := t.sessions[s].phase.health;
               && |health| == |session.infohashes| <= 60
               && (forall i :: 0 <= i < |health| ==>
                     health[i] == Health(session.infohashes[i], SignedAt(data, 8 + 12 * i, 4), SignedAt(data, 16 + 12 * i, 4)))
               && (forall i, j :: 0 <= i < j < |health| ==> health[i].infohash != health[j].infohash)
               && s !in t.active
  {
    assert WellFormed(st.sessions[s]);
  }

  // ---------------------------------------------------------------- what the tracker reads

  lemma SignedRoundTrip(n: int, width: nat, data: Bytes, offset: nat)
    requires Fits(n, width)
    requires offset + width <= |data| && data[offset..offset + width] == SignedBytes(n, width)
    ensures SignedAt(data, offset, width) == n
  {
    BigEndianRoundTrip(if n >= 0 then n else n + Range(width), width);
  }

  /** Writing a signed integer that was read restores its bytes. */
  lemma SignedBytesOfRead(data: Bytes, offset: nat, width: nat)
    requires offset + width <= |data|
    ensures SignedBytes(SignedAt(data, offset, width), width) == data[offset..offset + width]
  {
    var bs := data[offset..offset + width];
    BigEndianOfRead(bs);
    FromBigEndianInRange(bs);
  }

  lemma {:induction false} PartOfConcat(parts: seq<Bytes>, i: nat)
    requires i < |parts| && forall k :: 0 <= k < |parts| ==> |parts[k]| == 20
    ensures |Concat(parts)| == 20 * |parts|
    ensures Concat(parts)[20 * i..20 * i + 20] == parts[i]
    decreases |parts|
  {
    var rest := parts[1..];
    assert Concat(parts) == parts[0] + Concat(rest);
    if rest != [] {
      PartOfConcat(rest, if i > 0 then i - 1 else 0);
    } else {
      assert Concat(rest) == [];
    }
    if i > 0 {
      PartBehind(parts[0], Concat(rest), i - 1);
    }
  }

  lemma PartBehind(first: Bytes, rest: Bytes, i: nat)
    requires |first| == 20 && 20 * i + 20 <= |rest|
    ensures (first + rest)[20 * i + 20..20 * i + 40] == rest[20 * i..20 * i + 20]
  {
  }

  predicate Fits(n: int, width: nat) {
    0 <= 2 * n + Range(width) < 2 * Range(width)
  }

  /** A tracker reads from a request the connection, the action, the id, and the infohashes in order. */
  lemma RequestReads(session: Session)
    requires Fits(session.connectionId, 8) && Fits(session.action, 4) && Fits(session.transactionId, 4)
    ensures var message := Request(session);
            && |message| == 16 + (if session.action == 2 then 20 * |session.infohashes| else 0)
            && SignedAt(message, 0, 8) == session.connectionId
            && SignedAt(message, 8, 4) == session.action
            && SignedAt(message, 12, 4) == session.transactionId
  {
    var message := Request(session);
    if session.infohashes != [] {
      PartOfConcat(Fitted(session.infohashes), 0);
    }
    SignedRoundTrip(session.connectionId, 8, message, 0);
    SignedRoundTrip(session.action, 4, message, 8);
    SignedRoundTrip(session.transactionId, 4, message, 12);
  }

  lemma RequestListsInfohashes(session: Session, i: nat)
    requires session.action == 2 && i < |session.infohashes|
    ensures |Request(session)| == 16 + 20 * |session.infohashes|
    ensures Request(session)[16 + 20 * i..36 + 20 * i] == PayloadCodec.Fit(session.infohashes[i], 20)
  {
    PartOfConcat(Fitted(session.infohashes), i);
    var (head, parts) := (Request(session)[..16], Concat(Fitted(session.infohashes)));
    assert Request(session) == head + parts;
    Behind(head, parts, 20 * i, 20 * i + 20);
  }

  lemma Behind(head: Bytes, rest: Bytes, lo: nat, hi: nat)
    requires |head| == 16 && lo <= hi <= |rest|
    ensures (head + rest)[16 + lo..16 + hi] == rest[lo..hi]
  {
  }

  // ---------------------------------------------------------------- a whole exchange

  /** The event is another session's, or a datagram with another id; no stale id of an ended session comes in. */
  predicate Foreign(st: State, s: SessionId, e: Event)
    requires s in st.sessions
  {
    match e
    case NewSession(k, _) => k != s
    case AddInfohash(k, _) => k != s
    case SendConnect(k) => k != s
    case Datagram(data) => |data| < 8 || SignedAt(data, 4, 4) != st.sessions[s].transactionId
    case ReadConnectReply(k, _) => k != s
    case SendScrape(k) => k != s
    case ReadScrapeReply(k) => k != s
    case TimeOut(k) => k != s
    case Cleanup(k) => k != s && (k in st.sessions ==> st.sessions[k].transactionId != st.sessions[s].transactionId)
  }

  /** What concerns one session: itself, the id in use for it, and the future that waits under that id. */
  predicate SameFor(s: SessionId, st: State, t: State) {
    && s in st.sessions && s in t.sessions && t.sessions[s] == st.sessions[s]
    && (s in t.active <==> s in st.active)
    && var id := st.sessions[s].transactionId;
       (id in t.pending <==> id in st.pending) && (id in st.pending ==> t.pending[id] == st.pending[id])
  }

  /** The steps of other sessions and their datagrams leave a running session alone. */
  lemma ForeignSpares(st: State, s: SessionId, e: Event)
    requires Inv(st) && s in st.sessions && !st.sessions[s].phase.Ended() && Foreign(st, s, e)
    ensures SameFor(s, st, Step(st, e))
  {
    assert HoldsItsId(st, s);
    match e
    case SendConnect(k) => OtherId(st, s, k);
    case SendScrape(k) => OtherId(st, s, k);
    case ReadScrapeReply(k) =>
      OtherId(st, s, k);
      if k in st.sessions && st.sessions[k].phase.ScrapeReplied? {
        ReadScrapeSpares(st, s, k);
      }
    case Cleanup(k) =>
      if k in st.sessions {
        ReleaseSpares(st, s, k, st.sessions[k].(infohashes := []));
      }
    case Datagram(data) => OtherFuture(st, s, data);
    case _ =>
  }

  lemma ReleaseSpares(st: State, s: SessionId, k: SessionId, session: Session)
    requires s in st.sessions && k != s && session.transactionId != st.sessions[s].transactionId
    ensures SameFor(s, st, Released(Put(st, k, session), k))
    ensures SameFor(s, st, Put(st, k, session))
  {
  }

  lemma ReadScrapeSpares(st: State, s: SessionId, k: SessionId)
    requires s in st.sessions && k in st.sessions && k != s && st.sessions[k].phase.ScrapeReplied?
    requires st.sessions[k].transactionId != st.sessions[s].transactionId
    ensures SameFor(s, st, Step(st, ReadScrapeReply(k)))
  {
    var (session, data) := (st.sessions[k], st.sessions[k].phase.data);
    if GoodScrapeReply(session, data) {
      ReleaseSpares(st, s, k, session.(phase := Finished(ScrapeHealth(session.infohashes, data))));
    } else {
      ReleaseSpares(st, s, k, session.(phase := Failed));
    }
  }

  lemma OtherId(st: State, s: SessionId, k: SessionId)
    requires Inv(st) && s in st.sessions && !st.sessions[s].phase.Ended() && k != s
    ensures k in st.sessions && !st.sessions[k].phase.Ended() ==>
      st.sessions[k].transactionId != st.sessions[s].transactionId
  {
    assert HoldsItsId(st, s);
    if k in st.sessions {
      assert HoldsItsId(st, k);
    }
  }

  lemma OtherFuture(st: State, s: SessionId, data: Bytes)
    requires Inv(st) && s in st.sessions
    requires |data| < 8 || SignedAt(data, 4, 4) != st.sessions[s].transactionId
    ensures SameFor(s, st, Received(st, data))
  {
    if |data| >= 8 && SignedAt(data, 4, 4) in st.pending {
      var k := st.pending[SignedAt(data, 4, 4)];
      assert HoldsItsId(st, k) && HoldsItsId(st, s);
    }
  }

  function After(st: State, events: seq<Event>): State
    decreases |events|
  {
    if events == [] then st else After(Step(st, events[0]), events[1..])
  }

  /** All of these events are foreign to the session when their turn comes. */
  predicate AllForeign(st: State, s: SessionId, events: seq<Event>)
    decreases |events|
  {
    && s in st.sessions
    && (events == [] || (Foreign(st, s, events[0]) && AllForeign(Step(st, events[0]), s, events[1..])))
  }

  lemma {:induction false} ForeignRunSpares(st: State, s: SessionId, events: seq<Event>)
    requires Inv(st) && AllForeign(st, s, events) && !st.sessions[s].phase.Ended()
    ensures Inv(After(st, events)) && SameFor(s, st, After(st, events))
    decreases |events|
  {
    if events != [] {
      StepKeepsInv(st, events[0]);
      ForeignSpares(st, s, events[0]);
      ForeignRunSpares(Step(st, events[0]), s, events[1..]);
    }
  }

  /** A message on its way, the foreign events before its reply, the reply, and the foreign events before it is read. */
  datatype Exchange = Exchange(before: seq<Event>, reply: Bytes, after: seq<Event>)

  /** The state in which the session that was sent its message goes on to read the reply. */
  function Exchanged(st: State, x: Exchange): State {
    After(Step(After(st, x.before), Datagram(x.reply)), x.after)
  }

  /** The reply carries the session's id, and everything else is foreign to the session. */
  predicate Undisturbed(st: State, s: SessionId, x: Exchange)
    requires s in st.sessions
  {
    && |x.reply| >= 8 && SignedAt(x.reply, 4, 4) == st.sessions[s].transactionId
    && AllForeign(st, s, x.before)
    && AllForeign(Step(After(st, x.before), Datagram(x.reply)), s, x.after)
  }

  /** A session that waits has the reply when it goes on, whatever other sessions did meanwhile. */
  lemma ReplyArrives(st: State, s: SessionId, x: Exchange)
    requires Inv(st) && s in st.sessions && st.sessions[s].phase.Waiting()
    requires st.sessions[s].transactionId in st.pending && st.pending[st.sessions[s].transactionId] == s
    requires Undisturbed(st, s, x)
    ensures var (session, t) := (st.sessions[s], Exchanged(st, x));
            && Inv(t) && s in t.sessions
            && t.sessions[s] ==
               session.(phase := if session.phase.ConnectSent? then ConnectReplied(x.reply) else ScrapeReplied(x.reply))
  {
    var waiting := After(st, x.before);
    ForeignRunSpares(st, s, x.before);
    var replied := Step(waiting, Datagram(x.reply));
    StepKeepsInv(waiting, Datagram(x.reply));
    ForeignRunSpares(replied, s, x.after);
  }

  /** The future of a message that has just been sent. */
  lemma SentIsPending(st: State, s: SessionId)
    requires Inv(st) && s in st.sessions && (st.sessions[s].phase.Fresh? || st.sessions[s].phase.Connected?)
    ensures var (session, t) := (st.sessions[s], Step(st, if st.sessions[s].phase.Fresh? then SendConnect(s) else SendScrape(s)));
            && Inv(t) && s in t.sessions && t.sessions[s].phase.Waiting()
            && t.sessions[s] == session.(initiated := true, phase := t.sessions[s].phase)
            && t.sessions[s].phase == (if session.phase.Fresh? then ConnectSent else ScrapeSent)
            && session.transactionId in t.pending && t.pending[session.transactionId] == s
  {
    StepKeepsInv(st, if st.sessions[s].phase.Fresh? then SendConnect(s) else SendScrape(s));
    assert WellFormed(st.sessions[s]);
  }

  /** The connect half of a scrape: the session asks, is answered, and goes on under a new id. */
  function ConnectedBy(st: State, s: SessionId, x: Exchange, id: int): State {
    Step(Exchanged(Step(st, SendConnect(s)), x), ReadConnectReply(s, id))
  }

  lemma ConnectSucceeds(st: State, s: SessionId, x: Exchange, id: int)
    requires Inv(st) && s in st.sessions && st.sessions[s].phase.Fresh?
    requires Undisturbed(Step(st, SendConnect(s)), s, x)
    requires |x.reply| >= 16 && SignedAt(x.reply, 0, 4) == 0
    requires Unused(Exchanged(Step(st, SendConnect(s)), x), id)
    ensures var (session, t) := (st.sessions[s], ConnectedBy(st, s, x, id));
            && Inv(t) && s in t.sessions
            && t.sessions[s] == Session(id, SignedAt(x.reply, 8, 8), 2, session.infohashes, true, Connected)
  {
    SentIsPending(st, s);
    ReplyArrives(Step(st, SendConnect(s)), s, x);
    ReadConnectGoesOn(Exchanged(Step(st, SendConnect(s)), x), s, id);
  }

  lemma ReadConnectGoesOn(st: State, s: SessionId, id: int)
    requires Inv(st) && s in st.sessions && st.sessions[s].phase.ConnectReplied? && Unused(st, id)
    requires |st.sessions[s].phase.data| >= 16 && SignedAt(st.sessions[s].phase.data, 0, 4) == 0
    ensures var (session, t) := (st.sessions[s], Step(st, ReadConnectReply(s, id)));
            && Inv(t) && s in t.sessions
            && t.sessions[s] == Session(id, SignedAt(session.phase.data, 8, 8), 2, session.infohashes, session.initiated, Connected)
  {
    assert WellFormed(st.sessions[s]);
    StepKeepsInv(st, ReadConnectReply(s, id));
  }

  /** The i-th triple of the reply stands for the i-th infohash: its seeders come first, its leechers last. */
  predicate Answered(health: seq<Health>, infohashes: seq<Bytes>, reply: Bytes) {
    && |reply| == 8 + 12 * |infohashes| && |health| == |infohashes|
    && forall i :: 0 <= i < |health| ==>
         health[i] == Health(infohashes[i], SignedAt(reply, 8 + 12 * i, 4), SignedAt(reply, 16 + 12 * i, 4))
  }

  /** A timeout, or nothing to send with, fails a session wherever it stands, and nothing else; its future stays. */
  lemma TimeOutFails(st: State, s: SessionId)
    requires s in st.sessions
    ensures var (session, t) := (st.sessions[s], Step(st, TimeOut(s)));
            && s in t.sessions && t.active == st.active && t.pending == st.pending
            && (forall k :: k in st.sessions && k != s ==> k in t.sessions && t.sessions[k] == st.sessions[k])
            && (!session.phase.Ended() ==> t.sessions[s].phase == Failed && t.sessions[s].infohashes == session.infohashes)
            && (session.phase.Ended() ==> t.sessions[s] == session)
  {
  }

  /** Only a reply of at least sixteen bytes with the action of a connect lets the session go on; any other ends it. */
  lemma ConnectReplyDecides(st: State, s: SessionId, id: int)
    requires Inv(st) && s in st.sessions && st.sessions[s].phase.ConnectReplied? && Unused(st, id)
    ensures var (session, data) := (st.sessions[s], st.sessions[s].phase.data);
            var t := Step(st, ReadConnectReply(s, id));
            && (s in t.sessions && t.sessions[s].phase.Connected? <==> |data| >= 16 && SignedAt(data, 0, 4) == 0)
            && (|data| < 16 || SignedAt(data, 0, 4) != 0 ==>
                  t == st.(sessions := st.sessions[s := session.(phase := Failed)]))
  {
    assert WellFormed(st.sessions[s]);
  }

  /** Only a reply with the action of a scrape and a triple for each infohash is a result; any other ends the session. */
  lemma ScrapeReplyDecides(st: State, s: SessionId)
    requires Inv(st) && s in st.sessions && st.sessions[s].phase.ScrapeReplied?
    ensures var (session, data) := (st.sessions[s], st.sessions[s].phase.data);
            var (t, good) := (Step(st, ReadScrapeReply(s)),
                              SignedAt(data, 0, 4) == 2 && |data| == 8 + 12 * |session.infohashes|);
            && (s in t.sessions && t.sessions[s].phase.Finished? <==> good)
            && (!good ==> t == st.(sessions := st.sessions[s := session.(phase := Failed)]))
  {
    assert WellFormed(st.sessions[s]);
  }

  function ScrapedBy(st: State, s: SessionId, x: Exchange): State {
    Step(Exchanged(Step(st, SendScrape(s)), x), ReadScrapeReply(s))
  }

  lemma ScrapeSucceeds(st: State, s: SessionId, x: Exchange)
    requires Inv(st) && s in st.sessions && st.sessions[s].phase.Connected?
    requires Undisturbed(Step(st, SendScrape(s)), s, x)
    requires SignedAt(x.reply, 0, 4) == 2 && |x.reply| == 8 + 12 * |st.sessions[s].infohashes|
    ensures var (session, t) := (st.sessions[s], ScrapedBy(st, s, x));
            && Inv(t) && s in t.sessions && s !in t.active && session.transactionId !in t.pending
            && t.sessions[s].phase.Finished?
            && Answered(t.sessions[s].phase.health, session.infohashes, x.reply)
  {
    SentIsPending(st, s);
    ReplyArrives(Step(st, SendScrape(s)), s, x);
    ReadScrapeFinishes(Exchanged(Step(st, SendScrape(s)), x), s);
  }

  lemma ReadScrapeFinishes(st: State, s: SessionId)
    requires Inv(st) && s in st.sessions && st.sessions[s].phase.ScrapeReplied?
    requires var data := st.sessions[s].phase.data;
      SignedAt(data, 0, 4) == 2 && |data| == 8 + 12 * |st.sessions[s].infohashes|
    ensures var (session, t) := (st.sessions[s], Step(st, ReadScrapeReply(s)));
            && Inv(t) && s in t.sessions && s !in t.active && session.transactionId !in t.pending
            && t.sessions[s].phase.Finished?
            && Answered(t.sessions[s].phase.health, session.infohashes, session.phase.data)
  {
    assert WellFormed(st.sessions[s]);
    StepKeepsInv(st, ReadScrapeReply(s));
  }

  /** A new session with these infohashes. */
  function Opened(st: State, s: SessionId, id: int, infohashes: seq<Bytes>): State {
    if infohashes == [] then Step(st, NewSession(s, id))
    else
      Step(Opened(st, s, id, infohashes[..|infohashes| - 1]), AddInfohash(s, infohashes[|infohashes| - 1]))
  }

  lemma {:induction false} OpenedIsFresh(st: State, s: SessionId, id: int, infohashes: seq<Bytes>)
    requires Inv(st) && s !in st.sessions && Unused(st, id)
    requires |infohashes| <= 60 && forall i, j :: 0 <= i < j < |infohashes| ==> infohashes[i] != infohashes[j]
    ensures var t := Opened(st, s, id, infohashes);
            && Inv(t) && s in t.sessions
            && t.sessions[s] == Session(id, 0x41727101980, 0, infohashes, false, Fresh)
  {
    if infohashes == [] {
      StepKeepsInv(st, NewSession(s, id));
    } else {
      var (init, last) := (infohashes[..|infohashes| - 1], infohashes[|infohashes| - 1]);
      OpenedIsFresh(st, s, id, init);
      StepKeepsInv(Opened(st, s, id, init), AddInfohash(s, last));
      assert infohashes == init + [last];
    }
  }

  /** The tracker answers the connect message well, and no disturbance comes in. */
  predicate ConnectServed(st: State, s: SessionId, x: Exchange, id: int) {
    var sent := Step(st, SendConnect(s));
    && s in sent.sessions && Undisturbed(sent, s, x)
    && |x.reply| >= 16 && SignedAt(x.reply, 0, 4) == 0 && Unused(Exchanged(sent, x), id)
  }

  predicate ScrapeServed(st: State, s: SessionId, x: Exchange) {
    var sent := Step(st, SendScrape(s));
    && s in sent.sessions && Undisturbed(sent, s, x)
    && SignedAt(x.reply, 0, 4) == 2 && |x.reply| == 8 + 12 * |sent.sessions[s].infohashes|
  }

  lemma ServedCompletes(st: State, s: SessionId, first: Exchange, id: int, second: Exchange)
    requires Inv(st) && s in st.sessions && st.sessions[s].phase.Fresh?
    requires ConnectServed(st, s, first, id) && ScrapeServed(ConnectedBy(st, s, first, id), s, second)
    ensures var connected := ConnectedBy(st, s, first, id);
            var t := ScrapedBy(connected, s, second);
            && s in connected.sessions && Request(connected.sessions[s])[..8] == first.reply[8..16]
            && s in t.sessions && s !in t.active && id !in t.pending && t.sessions[s].phase.Finished?
            && Answered(t.sessions[s].phase.health, st.sessions[s].infohashes, second.reply)
  {
    ConnectSucceeds(st, s, first, id);
    var connected := ConnectedBy(st, s, first, id);
    SentIsPending(connected, s);
    ScrapeSucceeds(connected, s, second);
    RequestEchoes(connected.sessions[s], first.reply);
  }

  lemma IdsFit(session: Session, reply: Bytes, id: int)
    requires |reply| >= 16 && session.connectionId == SignedAt(reply, 8, 8)
    requires session.action == 2 && session.transactionId == id && 0 <= id < 0x8000_0000
    ensures Fits(session.connectionId, 8) && Fits(session.action, 4) && Fits(session.transactionId, 4)
  {
    FromBigEndianInRange(reply[8..16]);
    assert Range(4) == 0x1_0000_0000;
  }

  /** Whoever has read the connection id from bytes 8 to 16 sends the same bytes back. */
  lemma RequestEchoes(session: Session, reply: Bytes)
    requires |reply| >= 16 && session.connectionId == SignedAt(reply, 8, 8)
    ensures Request(session)[..8] == reply[8..16]
  {
    SignedBytesOfRead(reply, 8, 8);
  }

  /**
   * From every reachable state: a new session that is answered twice under its ids, while other sessions do what
   * they like, ends with the triples of the scrape reply, in the order of its infohashes, its ids and futures given
   * back; and its scrape message names the connection by the very bytes of the connect reply.
   */
  lemma ScrapeCompletes(
      events: seq<Event>, s: SessionId, id: int, infohashes: seq<Bytes>, first: Exchange, nextId: int, second: Exchange)
    requires s !in Run(events).sessions && Unused(Run(events), id)
    requires |infohashes| <= 60 && forall i, j :: 0 <= i < j < |infohashes| ==> infohashes[i] != infohashes[j]
    requires var begun := Opened(Run(events), s, id, infohashes);
             ConnectServed(begun, s, first, nextId) && ScrapeServed(ConnectedBy(begun, s, first, nextId), s, second)
    ensures var connected := ConnectedBy(Opened(Run(events), s, id, infohashes), s, first, nextId);
            var t := ScrapedBy(connected, s, second);
            && s in connected.sessions && Request(connected.sessions[s])[..8] == first.reply[8..16]
            && SignedAt(Request(connected.sessions[s]), 8, 4) == 2
            && SignedAt(Request(connected.sessions[s]), 12, 4) == nextId
            && s in t.sessions && s !in t.active && nextId !in t.pending && t.sessions[s].phase.Finished?
            && Answered(t.sessions[s].phase.health, infohashes, second.reply)
  {
    OpenedIsFresh(Run(events), s, id, infohashes);
    ConnectSucceeds(Opened(Run(events), s, id, infohashes), s, first, nextId);
    IdsFit(ConnectedBy(Opened(Run(events), s, id, infohashes), s, first, nextId).sessions[s], first.reply, nextId);
    RequestReads(ConnectedBy(Opened(Run(events), s, id, infohashes), s, first, nextId).sessions[s]);
    ServedCompletes(Opened(Run(events), s, id, infohashes), s, first, nextId, second);
  }

  // ---------------------------------------------------------------- freeing an id twice

  /** Cleaning up spares the futures of all other sessions exactly when none of them has taken over the stale id. */
  lemma CleanupSparesOthersIff(st: State, s: SessionId)
    requires Inv(st) && s in st.sessions && st.sessions[s].phase.Ended()
    ensures var t := Step(st, Cleanup(s));
            (forall id :: id in st.pending && st.pending[id] != s ==> id in t.pending && t.pending[id] == st.pending[id])
            <==> (st.sessions[s].transactionId in st.pending ==> st.pending[st.sessions[s].transactionId] == s)
  {
  }

  /** Cleaning up forgets the infohashes and gives the id back; what the session has found out stays. */
  lemma CleanupForgets(st: State, s: SessionId)
    requires s in st.sessions && st.sessions[s].phase.Ended()
    ensures var t := Step(st, Cleanup(s));
            && s in t.sessions && t.sessions[s] == st.sessions[s].(infohashes := []) && s !in t.active
            && st.sessions[s].transactionId !in t.pending
            && forall k :: k in st.sessions && k != s ==> k in t.sessions && t.sessions[k] == st.sessions[k]
  {
  }

  /** The first cleanup of a session always meets that condition. */
  lemma FirstCleanupSparesOthers(st: State, s: SessionId)
    requires Inv(st) && s in st.active && st.sessions[s].phase.Ended()
    ensures st.sessions[s].transactionId in st.pending ==> st.pending[st.sessions[s].transactionId] == s
  {
    assert HoldsItsId(st, s);
  }

  lemma RunAppend(events: seq<Event>, e: Event)
    ensures Run(events + [e]) == Step(Run(events), e)
  {
    assert (events + [e])[..|events|] == events;
  }

  /** A session that timed out before it sent anything, cleaned up once. */
  function GivenUp(): seq<Event> {
    [] + [NewSession(1, 7)] + [TimeOut(1)] + [Cleanup(1)]
  }

  lemma GivenUpState()
    ensures var st := Run(GivenUp());
            && st.sessions.Keys == {1} && st.sessions[1].phase.Failed? && st.sessions[1].transactionId == 7
            && st.active == map[] && st.pending == map[]
  {
    RunAppend([], NewSession(1, 7));
    RunAppend([] + [NewSession(1, 7)], TimeOut(1));
    RunAppend([] + [NewSession(1, 7)] + [TimeOut(1)], Cleanup(1));
    GivenUpSteps();
  }

  lemma GivenUpSteps()
    ensures var st := Step(Step(Step(INITIAL, NewSession(1, 7)), TimeOut(1)), Cleanup(1));
            && st.sessions.Keys == {1} && st.sessions[1].phase.Failed? && st.sessions[1].transactionId == 7
            && st.active == map[] && st.pending == map[]
  {
    var st := Step(INITIAL, NewSession(1, 7));
    assert st.sessions.Keys == {1} && st.active.Keys == {1} && st.pending == map[];
  }

  lemma DrawnAgain(st: State, s: SessionId, k: SessionId)
    requires Inv(st) && s in st.sessions && st.sessions[s].phase.Ended() && k !in st.sessions
    requires Unused(st, st.sessions[s].transactionId) && st.pending == map[]
    ensures var id := st.sessions[s].transactionId;
            var t := Step(Step(st, NewSession(k, id)), SendConnect(k));
            t.pending == map[id := k] && s in t.sessions && t.sessions[s] == st.sessions[s]
  {
  }

  lemma CleanedAgain(st: State, s: SessionId, k: SessionId)
    requires s in st.sessions && st.sessions[s].phase.Ended()
    requires st.pending == map[st.sessions[s].transactionId := k]
    ensures Step(st, Cleanup(s)).pending == map[]
  {
  }

  /** A second cleanup need not: session 2 has drawn the id that session 1 gave back, and loses its future. */
  lemma SecondCleanupDropsFuture()
    ensures var events := GivenUp() + [NewSession(2, 7)] + [SendConnect(2)];
            && Run(events).pending == map[7 := 2]
            && Run(events + [Cleanup(1)]).pending == map[]
  {
    var (e1, e2) := (GivenUp() + [NewSession(2, 7)], GivenUp() + [NewSession(2, 7)] + [SendConnect(2)]);
    GivenUpState();
    RunAppend(GivenUp(), NewSession(2, 7));
    RunAppend(e1, SendConnect(2));
    DrawnAgain(Run(GivenUp()), 1, 2);
    RunAppend(e2, Cleanup(1));
    CleanedAgain(Run(e2), 1, 2);
  }
}
