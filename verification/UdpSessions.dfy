/** The UDP tracker sessions and their socket manager as they are written: dictionaries changed step by step. */
module UdpSessions {
  import opened Binary
  import opened UdpTracker

  class UdpTrackers {
    var sessions: map<SessionId, Session>
    var activeSessionDict: map<SessionId, int>
    var trackerSessions: map<int, SessionId>

    function Model(): State
      reads this
    {
      State(sessions, activeSessionDict, trackerSessions)
    }

    constructor ()
      ensures Model() == INITIAL
    {
      sessions, activeSessionDict, trackerSessions := map[], map[], map[];
    }

    /** Draw until an unused id comes up; the draws are those of the random generator, up to the first good one. */
    method GenerateTransactionId(s: SessionId, draws: seq<int>) returns (id: int)
      requires s in sessions
      requires draws != [] && Unused(Model(), draws[|draws| - 1])
      modifies this
      ensures Unused(old(Model()), id)
      ensures activeSessionDict == old(activeSessionDict)[s := id]
      ensures sessions == old(sessions)[s := old(sessions)[s].(transactionId := id)]
      ensures trackerSessions == old(trackerSessions)
    {
      var i := 0;
      while !(0 <= draws[i] < 0x8000_0000 && draws[i] !in activeSessionDict.Values)
        invariant 0 <= i < |draws|
        decreases |draws| - i
      {
        assert draws[i] in activeSessionDict.Values ==>
          exists k :: k in activeSessionDict && activeSessionDict[k] == draws[i];
        i := i + 1;
      }
      id := draws[i];
      activeSessionDict := activeSessionDict[s := id];
      sessions := sessions[s := sessions[s].(transactionId := id)];
    }

    /** A new session draws its first id. */
    method Create(s: SessionId, draws: seq<int>)
      requires s !in sessions && draws != [] && Unused(Model(), draws[|draws| - 1])
      modifies this
      ensures exists id :: Unused(old(Model()), id) && Model() == Step(old(Model()), NewSession(s, id))
      ensures Inv(old(Model())) ==> Inv(Model())
    {
      ghost var before := Model();
      sessions := sessions[s := Session(0, UDP_TRACKER_INIT_CONNECTION_ID, ACTION_CONNECT, [], false, Fresh)];
      var id := GenerateTransactionId(s, draws);
      assert Model() == Step(before, NewSession(s, id));
      if Inv(before) {
        StepKeepsInv(before, NewSession(s, id));
      }
    }

    method AddInfohash(s: SessionId, infohash: Bytes)
      requires s in sessions && !sessions[s].initiated && infohash !in sessions[s].infohashes
      modifies this
      ensures Model() == Step(old(Model()), UdpTracker.AddInfohash(s, infohash))
      ensures Inv(old(Model())) ==> Inv(Model())
    {
      if Inv(Model()) {
        StepKeepsInv(Model(), UdpTracker.AddInfohash(s, infohash));
      }
      if |sessions[s].infohashes| < MAX_INFOHASHES_IN_SCRAPE {
        sessions := sessions[s := sessions[s].(infohashes := sessions[s].infohashes + [infohash])];
      }
    }

    /** transport_received; data of four to seven bytes passes the length test and then fails to unpack. */
    method TransportReceived(data: Bytes) returns (raised: bool)
      modifies this
      ensures Model() == Received(old(Model()), data)
      ensures raised <==> PassesLengthTest(data) && UnpackedId(data).None?
      ensures Inv(old(Model())) ==> Inv(Model())
    {
      ghost var before := Model();
      if PassesLengthTest(data) {
        var unpacked := UnpackedId(data);
        if unpacked.None? {
          return true;
        }
        var transactionId := unpacked.value;
        if transactionId in trackerSessions {
          var s := trackerSessions[transactionId];
          trackerSessions := trackerSessions - {transactionId};
          if s in sessions && sessions[s].phase.Waiting() {
            var phase := if sessions[s].phase.ConnectSent? then ConnectReplied(data) else ScrapeReplied(data);
            sessions := sessions[s := sessions[s].(phase := phase)];
          }
        }
      }
      raised := false;
      if Inv(before) {
        StepKeepsInv(before, Datagram(data));
      }
    }

    method RemoveTransactionId(s: SessionId)
      requires s in sessions
      modifies this`activeSessionDict, this`trackerSessions
      ensures Model() == Released(old(Model()), s)
    {
      if s in activeSessionDict {
        activeSessionDict := activeSessionDict - {s};
      } else {
        assert activeSessionDict - {s} == activeSessionDict;
      }
      var transactionId := sessions[s].transactionId;
      if transactionId in trackerSessions {
        trackerSessions := trackerSessions - {transactionId};
      } else {
        assert trackerSessions - {transactionId} == trackerSessions;
      }
    }

    /**
     * The connect or the scrape message and its sending: the reply is awaited under the session's id, or the session
     * fails because there is no transport or it raises an OSError.
     */
    method SendRequest(s: SessionId, canSend: bool) returns (message: Bytes)
      requires s in sessions && (sessions[s].phase.Fresh? || sessions[s].phase.Connected?)
      modifies this
      ensures Model() == Step(old(Model()),
        if !canSend then TimeOut(s) else if old(sessions)[s].phase.Fresh? then SendConnect(s) else SendScrape(s))
      ensures Inv(old(Model())) ==> message == Request(old(sessions)[s])
      ensures Inv(old(Model())) ==> Inv(Model())
    {
      ghost var before := Model();
      var session := sessions[s];
      message := SignedBytes(session.connectionId, 8) + SignedBytes(session.action, 4)
        + SignedBytes(session.transactionId, 4);
      if session.phase.Connected? {
        message := message + Concat(Fitted(session.infohashes));
      }
      assert Inv(before) ==> WellFormed(session);
      assert message + [] == message;
      if !canSend {
        sessions := sessions[s := session.(initiated := true, phase := Failed)];
      } else {
        if session.phase.Fresh? {
          sessions := sessions[s := session.(initiated := true, phase := ConnectSent)];
        } else {
          sessions := sessions[s := session.(phase := ScrapeSent)];
        }
        trackerSessions := trackerSessions[session.transactionId := s];
      }
      if Inv(before) {
        StepKeepsInv(before,
          if !canSend then TimeOut(s) else if session.phase.Fresh? then SendConnect(s) else SendScrape(s));
      }
    }

    /** The rest of connect() once its reply is there: on success the session goes on under a new id. */
    method FinishConnect(s: SessionId, draws: seq<int>) returns (ok: bool)
      requires s in sessions && sessions[s].phase.ConnectReplied?
      requires draws != [] && Unused(Model(), draws[|draws| - 1])
      modifies this
      ensures exists id :: Unused(old(Model()), id) && Model() == Step(old(Model()), ReadConnectReply(s, id))
      ensures ok <==> GoodConnectReply(old(sessions)[s], old(sessions)[s].phase.data)
      ensures Inv(old(Model())) ==> Inv(Model())
    {
      ghost var before := Model();
      var (session, response) := (sessions[s], sessions[s].phase.data);
      if |response| < 16 || SignedAt(response, 0, 4) != session.action
         || SignedAt(response, 4, 4) != session.transactionId {
        sessions := sessions[s := session.(phase := Failed)];
        assert Model() == Step(before, ReadConnectReply(s, draws[|draws| - 1]));
        if Inv(before) {
          StepKeepsInv(before, ReadConnectReply(s, draws[|draws| - 1]));
        }
        return false;
      }
      sessions := sessions[s := session.(connectionId := SignedAt(response, 8, 8), action := ACTION_SCRAPE,
                                         phase := Connected)];
      var id := GenerateTransactionId(s, draws);
      assert Model() == Step(before, ReadConnectReply(s, id));
      if Inv(before) {
        StepKeepsInv(before, ReadConnectReply(s, id));
      }
      ok := true;
    }

    /** The rest of scrape() once its reply is there. */
    method FinishScrape(s: SessionId) returns (ok: bool)
      requires s in sessions && sessions[s].phase.ScrapeReplied?
      modifies this
      ensures Model() == Step(old(Model()), ReadScrapeReply(s))
      ensures ok <==> GoodScrapeReply(old(sessions)[s], old(sessions)[s].phase.data)
      ensures Inv(old(Model())) ==> Inv(Model())
    {
      if Inv(Model()) {
        StepKeepsInv(Model(), ReadScrapeReply(s));
      }
      var (session, response) := (sessions[s], sessions[s].phase.data);
      if |response| < 8 || SignedAt(response, 0, 4) != session.action
         || SignedAt(response, 4, 4) != session.transactionId
         || |response| - 8 != |session.infohashes| * 12 {
        sessions := sessions[s := session.(phase := Failed)];
        return false;
      }
      var health := ReadTriples(session.infohashes, response);
      sessions := sessions[s := session.(phase := Finished(health))];
      RemoveTransactionId(s);
      ok := true;
    }

    /** cleanup() of a session that has finished or failed. */
    method Cleanup(s: SessionId)
      requires s in sessions && sessions[s].phase.Ended()
      modifies this
      ensures Model() == Step(old(Model()), UdpTracker.Cleanup(s))
      ensures Inv(old(Model())) ==> Inv(Model())
    {
      if Inv(Model()) {
        StepKeepsInv(Model(), UdpTracker.Cleanup(s));
      }
      sessions := sessions[s := sessions[s].(infohashes := [])];
      RemoveTransactionId(s);
    }
  }

  /** The loop over the infohashes, with the offset running along. */
  method ReadTriples(infohashes: seq<Bytes>, response: Bytes) returns (health: seq<Health>)
    requires |response| == 8 + 12 * |infohashes|
    ensures health == ScrapeHealth(infohashes, response)
  {
    health := [];
    var offset := 8;
    for i := 0 to |infohashes|
      invariant offset == 8 + 12 * i
      invariant health == ScrapeHealth(infohashes, response)[..i]
    {
      var complete := SignedAt(response, offset, 4);
      var incomplete := SignedAt(response, offset + 8, 4);
      offset := offset + 12;
      health := health + [Health(infohashes[i], complete, incomplete)];
    }
  }
}
