/** The BEP 33 lookup manager: lookups, outstanding queries, and the filters that answer them. */
module DhtLookup {
  import opened Binary
  import opened BloomFilter

  type TransactionId = string

  /** How a lookup's future ended: with the zero bits of its two filters, or cancelled by the one who waits. */
  datatype Ending = Estimated(seederZeros: nat, peerZeros: nat) | Cancelled

  /** The four dictionaries of the manager, the futures that are done, and the number of futures made so far. */
  datatype State = State(
    lookupFutures: map<Bytes, nat>,
    bfSeeders: map<Bytes, Filter>,
    bfPeers: map<Bytes, Filter>,
    outstanding: map<TransactionId, Bytes>,
    endings: map<nat, Ending>,
    made: nat)

  const INITIAL := State(map[], map[], map[], map[], map[], 0)

  datatype Event =
    | GetHealth(infohash: Bytes)
    | FinalizeLookup(infohash: Bytes)
    | RequestingBloomfilters(id: TransactionId, infohash: Bytes)
    | ReceivedBloomfilters(id: TransactionId, seeds: Filter, peers: Filter)
    | CancelFuture(future: nat)

  /** The dictionaries agree on which lookups are live, and every outstanding query belongs to one of them. */
  predicate KeysAgree(s: State) {
    && s.lookupFutures.Keys == s.bfSeeders.Keys == s.bfPeers.Keys
    && forall id :: id in s.outstanding ==> s.outstanding[id] in s.lookupFutures
  }

  /** Lookups have futures of their own, and only futures that were made have ended. */
  predicate FuturesAgree(s: State) {
    && (forall h :: h in s.lookupFutures ==> s.lookupFutures[h] < s.made)
    && (forall h, k :: h in s.lookupFutures && k in s.lookupFutures && s.lookupFutures[h] == s.lookupFutures[k] ==> h == k)
    && (forall f :: f in s.endings ==> f < s.made)
  }

  predicate Consistent(s: State) {
    KeysAgree(s) && FuturesAgree(s)
  }

  function AfterGetHealth(s: State, infohash: Bytes): State {
    if infohash in s.lookupFutures then s
    else s.(lookupFutures := s.lookupFutures[infohash := s.made],
            bfSeeders := s.bfSeeders[infohash := Empty()],
            bfPeers := s.bfPeers[infohash := Empty()],
            made := s.made + 1)
  }

  function Ended(s: State, future: nat, ending: Ending): State {
    if future in s.endings then s else s.(endings := s.endings[future := ending])
  }

  /** The queries that were made for other lookups. */
  function OtherQueries(outstanding: map<TransactionId, Bytes>, infohash: Bytes): map<TransactionId, Bytes> {
    map id | id in outstanding && outstanding[id] != infohash :: outstanding[id]
  }

  function AfterFinalize(s: State, infohash: Bytes): State
    requires Consistent(s)
  {
    var s1 := s.(outstanding := OtherQueries(s.outstanding, infohash));
    if infohash !in s.lookupFutures then s1
    else
      var ending := Estimated(ZeroBits(s.bfSeeders[infohash]), ZeroBits(s.bfPeers[infohash]));
      Ended(s1, s.lookupFutures[infohash], ending)
        .(lookupFutures := s.lookupFutures - {infohash},
          bfSeeders := s.bfSeeders - {infohash},
          bfPeers := s.bfPeers - {infohash})
  }

  function AfterRequesting(s: State, id: TransactionId, infohash: Bytes): State {
    if infohash in s.lookupFutures then s.(outstanding := s.outstanding[id := infohash])
    else s.(outstanding := s.outstanding - {id})
  }

  /** The lookup a response is counted for; an empty infohash reads as none. */
  predicate Attributed(s: State, id: TransactionId, infohash: Bytes) {
    id in s.outstanding && s.outstanding[id] == infohash && infohash != []
  }

  function AfterReceived(s: State, id: TransactionId, seeds: Filter, peers: Filter): State
    requires Consistent(s)
  {
    if id !in s.outstanding || s.outstanding[id] == [] then s
    else
      var h := s.outstanding[id];
      s.(bfSeeders := s.bfSeeders[h := Or(s.bfSeeders[h], seeds)],
         bfPeers := s.bfPeers[h := Or(s.bfPeers[h], peers)])
  }

  function Step(s: State, e: Event): State
    requires Consistent(s)
  {
    match e
    case GetHealth(h) => AfterGetHealth(s, h)
    case FinalizeLookup(h) => AfterFinalize(s, h)
    case RequestingBloomfilters(id, h) => AfterRequesting(s, id, h)
    case ReceivedBloomfilters(id, seeds, peers) => AfterReceived(s, id, seeds, peers)
    case CancelFuture(f) => if f < s.made then Ended(s, f, Cancelled) else s
  }

  // ---------------------------------------------------------------- the manager

  class DhtHealthManager {
    var lookupFutures: map<Bytes, nat>
    var bfSeeders: map<Bytes, Filter>
    var bfPeers: map<Bytes, Filter>
    var outstanding: map<TransactionId, Bytes>
    var endings: map<nat, Ending>
    var made: nat

    function Model(): State
      reads this
    {
      State(lookupFutures, bfSeeders, bfPeers, outstanding, endings, made)
    }

    constructor ()
      ensures Model() == INITIAL
    {
      lookupFutures, bfSeeders, bfPeers, outstanding, endings, made := map[], map[], map[], map[], map[], 0;
    }

    /** The future of the running lookup, or that of a new one. */
    method GetHealth(infohash: Bytes) returns (future: nat)
      modifies this
      ensures Model() == AfterGetHealth(old(Model()), infohash)
      ensures infohash in lookupFutures && future == lookupFutures[infohash]
    {
      if infohash in lookupFutures {
        return lookupFutures[infohash];
      }
      future := made;
      made := made + 1;
      lookupFutures := lookupFutures[infohash := future];
      bfSeeders := bfSeeders[infohash := Empty()];
      bfPeers := bfPeers[infohash := Empty()];
    }

    method FinalizeLookup(infohash: Bytes)
      requires Consistent(Model())
      modifies this
      ensures Model() == AfterFinalize(old(Model()), infohash)
    {
      outstanding := OtherQueries(outstanding, infohash);
      if infohash !in lookupFutures {
        return;
      }
      var seeders, peers := bfSeeders[infohash], bfPeers[infohash];
      bfSeeders, bfPeers := bfSeeders - {infohash}, bfPeers - {infohash};
      var seederZeros := CountZeros(seeders);
      var peerZeros := CountZeros(peers);
      var future := lookupFutures[infohash];
      if future !in endings {
        endings := endings[future := Estimated(seederZeros, peerZeros)];
      }
      lookupFutures := lookupFutures - {infohash};
    }

    method RequestingBloomfilters(id: TransactionId, infohash: Bytes)
      modifies this
      ensures Model() == AfterRequesting(old(Model()), id, infohash)
    {
      if infohash in lookupFutures {
        outstanding := outstanding[id := infohash];
      } else if id in outstanding {
        outstanding := outstanding - {id};
      } else {
        assert outstanding - {id} == outstanding;
      }
    }

    /** No response meets a missing key, since outstanding queries belong to live lookups. */
    method ReceivedBloomfilters(id: TransactionId, seeds: Filter, peers: Filter)
      requires Consistent(Model())
      modifies this
      ensures Model() == AfterReceived(old(Model()), id, seeds, peers)
    {
      if id !in outstanding || outstanding[id] == [] {
        return;
      }
      var infohash := outstanding[id];
      var combined := CombineBloomfilters(bfSeeders[infohash], seeds);
      bfSeeders := bfSeeders[infohash := combined];
      combined := CombineBloomfilters(bfPeers[infohash], peers);
      bfPeers := bfPeers[infohash := combined];
    }
  }

  // ---------------------------------------------------------------- every run

  lemma GetHealthKeepsConsistency(s: State, infohash: Bytes)
    requires Consistent(s)
    ensures Consistent(AfterGetHealth(s, infohash))
  {
  }

  lemma EndedKeepsConsistency(s: State, future: nat, ending: Ending)
    requires Consistent(s) && future < s.made
    ensures Consistent(Ended(s, future, ending))
  {
  }

  lemma FinalizeKeepsKeys(s: State, infohash: Bytes)
    requires Consistent(s)
    ensures KeysAgree(AfterFinalize(s, infohash))
  {
  }

  lemma FinalizeKeepsFutures(s: State, infohash: Bytes)
    requires Consistent(s)
    ensures FuturesAgree(AfterFinalize(s, infohash))
  {
    var t := AfterFinalize(s, infohash);
    assert forall h :: h in t.lookupFutures ==> h in s.lookupFutures && t.lookupFutures[h] == s.lookupFutures[h];
  }

  lemma RequestingKeepsConsistency(s: State, id: TransactionId, infohash: Bytes)
    requires Consistent(s)
    ensures Consistent(AfterRequesting(s, id, infohash))
  {
  }

  lemma ReceivedKeepsConsistency(s: State, id: TransactionId, seeds: Filter, peers: Filter)
    requires Consistent(s)
    ensures Consistent(AfterReceived(s, id, seeds, peers))
  {
  }

  /** Each step keeps the dictionaries consistent. */
  lemma StepKeepsConsistency(s: State, e: Event)
    requires Consistent(s)
    ensures Consistent(Step(s, e))
  {
    match e
    case GetHealth(h) => GetHealthKeepsConsistency(s, h);
    case FinalizeLookup(h) => FinalizeKeepsKeys(s, h); FinalizeKeepsFutures(s, h);
    case RequestingBloomfilters(id, h) => RequestingKeepsConsistency(s, id, h);
    case ReceivedBloomfilters(id, seeds, peers) => ReceivedKeepsConsistency(s, id, seeds, peers);
    case CancelFuture(f) =>
      if f < s.made {
        EndedKeepsConsistency(s, f, Cancelled);
      }
  }

  /** A future that has ended keeps its ending: each is resolved at most once. */
  lemma EndingsAreFinal(s: State, e: Event, f: nat)
    requires Consistent(s) && f in s.endings
    ensures f in Step(s, e).endings && Step(s, e).endings[f] == s.endings[f]
  {
  }

  predicate SameLookup(s: State, t: State, h: Bytes)
    requires h in s.lookupFutures && Consistent(s)
  {
    && h in t.lookupFutures && t.lookupFutures[h] == s.lookupFutures[h]
    && h in t.bfSeeders && t.bfSeeders[h] == s.bfSeeders[h] && h in t.bfPeers && t.bfPeers[h] == s.bfPeers[h]
  }

  lemma ReceivedOnLive(s: State, id: TransactionId, seeds: Filter, peers: Filter, h: Bytes)
    requires Consistent(s) && h in s.lookupFutures
    ensures var t := AfterReceived(s, id, seeds, peers);
            if Attributed(s, id, h) then
              t == s.(bfSeeders := s.bfSeeders[h := Or(s.bfSeeders[h], seeds)],
                      bfPeers := s.bfPeers[h := Or(s.bfPeers[h], peers)])
            else SameLookup(s, t, h)
  {
  }

  lemma FinalizeOnLive(s: State, infohash: Bytes, h: Bytes)
    requires Consistent(s) && h in s.lookupFutures
    ensures var t := AfterFinalize(s, infohash);
            if infohash == h then h !in t.lookupFutures else SameLookup(s, t, h)
  {
  }

  lemma GetOnLive(s: State, infohash: Bytes, h: Bytes)
    requires Consistent(s) && h in s.lookupFutures
    ensures SameLookup(s, AfterGetHealth(s, infohash), h)
  {
  }

  lemma RequestingOnLive(s: State, id: TransactionId, infohash: Bytes, h: Bytes)
    requires Consistent(s) && h in s.lookupFutures
    ensures SameLookup(s, AfterRequesting(s, id, infohash), h)
  {
  }

  lemma CancelOnLive(s: State, f: nat, h: Bytes)
    requires Consistent(s) && h in s.lookupFutures
    ensures SameLookup(s, Ended(s, f, Cancelled), h)
  {
  }

  /** What a step does to one live lookup: it goes on until its end, and only responses to it change its filters. */
  lemma StepOnLive(s: State, e: Event, h: Bytes)
    requires Consistent(s) && h in s.lookupFutures
    ensures var t := Step(s, e);
            if e == FinalizeLookup(h) then h !in t.lookupFutures
            else if e.ReceivedBloomfilters? && Attributed(s, e.id, h) then
              && h in t.lookupFutures && t.lookupFutures[h] == s.lookupFutures[h]
              && h in t.bfSeeders && t.bfSeeders[h] == Or(s.bfSeeders[h], e.seeds)
              && h in t.bfPeers && t.bfPeers[h] == Or(s.bfPeers[h], e.peers)
            else SameLookup(s, t, h)
  {
    match e
    case GetHealth(k) => GetOnLive(s, k, h);
    case FinalizeLookup(k) => FinalizeOnLive(s, k, h);
    case RequestingBloomfilters(id, k) => RequestingOnLive(s, id, k, h);
    case ReceivedBloomfilters(id, seeds, peers) => ReceivedOnLive(s, id, seeds, peers, h);
    case CancelFuture(f) => CancelOnLive(s, f, h);
  }

  /** Only a request makes a lookup live, with empty filters and a future of its own. */
  lemma StepOnOther(s: State, e: Event, h: Bytes)
    requires Consistent(s) && h !in s.lookupFutures
    ensures var t := Step(s, e);
            && (h in t.lookupFutures <==> e == GetHealth(h))
            && (h in t.lookupFutures ==>
                  && t.lookupFutures[h] == s.made && s.made !in t.endings
                  && h in t.bfSeeders && t.bfSeeders[h] == Empty() && h in t.bfPeers && t.bfPeers[h] == Empty())
  {
  }

  /** Only the end of a lookup answers a future; anything else that ends one is a cancellation. */
  lemma StepAnswers(s: State, e: Event, f: nat)
    requires Consistent(s) && f !in s.endings && f in Step(s, e).endings
    ensures Step(s, e).endings[f].Cancelled?
            || (e.FinalizeLookup? && e.infohash in s.lookupFutures && s.lookupFutures[e.infohash] == f)
  {
  }

  function Run(events: seq<Event>): (s: State)
    ensures Consistent(s)
  {
    if events == [] then INITIAL
    else
      var before := Run(events[..|events| - 1]);
      StepKeepsConsistency(before, events[|events| - 1]);
      Step(before, events[|events| - 1])
  }

  /** A live lookup's future has not been answered; an answer comes only with the lookup's end. */
  lemma {:induction false} LiveIsUnanswered(events: seq<Event>, infohash: Bytes)
    ensures var s := Run(events);
            infohash in s.lookupFutures && s.lookupFutures[infohash] in s.endings ==>
              s.endings[s.lookupFutures[infohash]].Cancelled?
    decreases |events|
  {
    if infohash in Run(events).lookupFutures {
      var init := events[..|events| - 1];
      var (s, e) := (Run(init), events[|events| - 1]);
      if infohash in s.lookupFutures {
        StepOnLive(s, e, infohash);
        LiveIsUnanswered(init, infohash);
        var f := s.lookupFutures[infohash];
        if f in s.endings {
          EndingsAreFinal(s, e, f);
        } else if f in Step(s, e).endings {
          StepAnswers(s, e, f);
        }
      } else {
        StepOnOther(s, e, infohash);
      }
    }
  }

  /** The responses counted for the lookup that is running for this infohash, in order. */
  function Heard(events: seq<Event>, infohash: Bytes): seq<(Filter, Filter)> {
    if events == [] then []
    else
      var (init, last) := (events[..|events| - 1], events[|events| - 1]);
      var heard := Heard(init, infohash);
      match last
      case GetHealth(h) => if h == infohash && infohash !in Run(init).lookupFutures then [] else heard
      case ReceivedBloomfilters(id, seeds, peers) =>
        if Attributed(Run(init), id, infohash) then heard + [(seeds, peers)] else heard
      case _ => heard
  }

  // ---------------------------------------------------------------- which response counts for which lookup

  /** The query of this id is kept as one for this lookup. */
  predicate Asks(s: State, id: TransactionId, infohash: Bytes) {
    id in s.outstanding && s.outstanding[id] == infohash
  }

  /**
   * A query is kept for a lookup if it was made for it while it was live, until its id is used for another query
   * or the lookup ends; nothing else forgets it.
   */
  lemma StepAsksIff(s: State, e: Event, id: TransactionId, infohash: Bytes)
    requires Consistent(s)
    ensures Asks(Step(s, e), id, infohash) <==>
            || (e == RequestingBloomfilters(id, infohash) && infohash in s.lookupFutures)
            || (Asks(s, id, infohash) && !(e.RequestingBloomfilters? && e.id == id) && e != FinalizeLookup(infohash))
  {
    match e
    case RequestingBloomfilters(k, h) => RequestAsks(s, k, h, id, infohash);
    case FinalizeLookup(h) => FinalizeAsks(s, h, id, infohash);
    case _ =>
  }

  lemma RequestAsks(s: State, k: TransactionId, h: Bytes, id: TransactionId, infohash: Bytes)
    requires Consistent(s)
    ensures Asks(AfterRequesting(s, k, h), id, infohash) <==>
            if k == id then h == infohash && h in s.lookupFutures else Asks(s, id, infohash)
  {
  }

  lemma FinalizeAsks(s: State, h: Bytes, id: TransactionId, infohash: Bytes)
    requires Consistent(s)
    ensures Asks(AfterFinalize(s, h), id, infohash) <==> Asks(s, id, infohash) && h != infohash
  {
  }

  /** The event does not use the id again, and does not end the lookup. */
  predicate Spares(e: Event, id: TransactionId, infohash: Bytes) {
    !(e.RequestingBloomfilters? && e.id == id) && e != FinalizeLookup(infohash)
  }

  predicate AllSpare(events: seq<Event>, id: TransactionId, infohash: Bytes) {
    forall i :: 0 <= i < |events| ==> Spares(events[i], id, infohash)
  }

  function AfterAll(s: State, events: seq<Event>): (t: State)
    requires Consistent(s)
    ensures Consistent(t)
    decreases |events|
  {
    if events == [] then s
    else
      StepKeepsConsistency(s, events[0]);
      AfterAll(Step(s, events[0]), events[1..])
  }

  lemma {:induction false} QueryStays(s: State, id: TransactionId, infohash: Bytes, events: seq<Event>)
    requires Consistent(s) && Asks(s, id, infohash) && AllSpare(events, id, infohash)
    ensures Asks(AfterAll(s, events), id, infohash)
    decreases |events|
  {
    if events != [] {
      StepAsksIff(s, events[0], id, infohash);
      StepKeepsConsistency(s, events[0]);
      QueryStays(Step(s, events[0]), id, infohash, events[1..]);
    }
  }

  /**
   * In every reachable state: a response to a query for a live lookup is counted, whatever happens in between,
   * unless the id is used again or the lookup ends; and it is counted for no other lookup.
   */
  lemma QueryIsCounted(
      events: seq<Event>, id: TransactionId, infohash: Bytes, more: seq<Event>, seeds: Filter, peers: Filter)
    requires infohash in Run(events).lookupFutures && infohash != [] && AllSpare(more, id, infohash)
    ensures Consistent(Step(Run(events), RequestingBloomfilters(id, infohash)))
    ensures var s := AfterAll(Step(Run(events), RequestingBloomfilters(id, infohash)), more);
            var t := Step(s, ReceivedBloomfilters(id, seeds, peers));
            && infohash in s.lookupFutures && infohash in t.bfSeeders && infohash in t.bfPeers
            && t.bfSeeders[infohash] == Or(s.bfSeeders[infohash], seeds)
            && t.bfPeers[infohash] == Or(s.bfPeers[infohash], peers)
            && forall h :: h in s.lookupFutures && h != infohash ==> SameLookup(s, t, h)
  {
    LiveAsks(Run(events), id, infohash);
    var asked := Step(Run(events), RequestingBloomfilters(id, infohash));
    QueryStays(asked, id, infohash, more);
    ReceivedCounts(AfterAll(asked, more), id, infohash, seeds, peers);
  }

  lemma LiveAsks(s: State, id: TransactionId, infohash: Bytes)
    requires Consistent(s) && infohash in s.lookupFutures
    ensures var t := Step(s, RequestingBloomfilters(id, infohash)); Consistent(t) && Asks(t, id, infohash)
  {
    StepKeepsConsistency(s, RequestingBloomfilters(id, infohash));
  }

  lemma ReceivedCounts(s: State, id: TransactionId, infohash: Bytes, seeds: Filter, peers: Filter)
    requires Consistent(s) && Asks(s, id, infohash) && infohash != []
    ensures var t := AfterReceived(s, id, seeds, peers);
            && infohash in t.lookupFutures && infohash in t.bfSeeders && infohash in t.bfPeers
            && t.bfSeeders[infohash] == Or(s.bfSeeders[infohash], seeds)
            && t.bfPeers[infohash] == Or(s.bfPeers[infohash], peers)
            && forall h :: h in s.lookupFutures && h != infohash ==> SameLookup(s, t, h)
  {
  }

  function Seeds(heard: seq<(Filter, Filter)>): (fs: seq<Filter>)
    ensures |fs| == |heard| && forall i :: 0 <= i < |fs| ==> fs[i] == heard[i].0
  {
    seq(|heard|, i requires 0 <= i < |heard| => heard[i].0)
  }

  function Peers(heard: seq<(Filter, Filter)>): (fs: seq<Filter>)
    ensures |fs| == |heard| && forall i :: 0 <= i < |fs| ==> fs[i] == heard[i].1
  {
    seq(|heard|, i requires 0 <= i < |heard| => heard[i].1)
  }

  lemma UnionAppend(start: Filter, heard: seq<(Filter, Filter)>, more: (Filter, Filter))
    ensures Union(start, Seeds(heard + [more])) == Or(Union(start, Seeds(heard)), more.0)
    ensures Union(start, Peers(heard + [more])) == Or(Union(start, Peers(heard)), more.1)
  {
    var (s, p) := (Seeds(heard + [more]), Peers(heard + [more]));
    assert s[..|s| - 1] == Seeds(heard) && p[..|p| - 1] == Peers(heard);
  }

  /** In every run, a live lookup's filters are the bitwise OR of exactly the responses counted for it. */
  lemma {:induction false} FiltersAreUnions(events: seq<Event>, infohash: Bytes)
    ensures infohash in Run(events).lookupFutures ==>
      && Run(events).bfSeeders[infohash] == Union(Empty(), Seeds(Heard(events, infohash)))
      && Run(events).bfPeers[infohash] == Union(Empty(), Peers(Heard(events, infohash)))
    decreases |events|
  {
    if infohash in Run(events).lookupFutures {
      var (init, last) := (events[..|events| - 1], events[|events| - 1]);
      if infohash in Run(init).lookupFutures {
        StepOnLive(Run(init), last, infohash);
        FiltersAreUnions(init, infohash);
        if last.ReceivedBloomfilters? {
          UnionAppend(Empty(), Heard(init, infohash), (last.seeds, last.peers));
        }
      } else {
        StepOnOther(Run(init), last, infohash);
        assert Heard(events, infohash) == [];
      }
    }
  }

  /** Two runs whose lookups counted the same responses, in any order and any number of times, agree on the filters. */
  lemma OrderDoesNotMatter(a: seq<Event>, b: seq<Event>, infohash: Bytes)
    requires forall r :: r in Heard(a, infohash) <==> r in Heard(b, infohash)
    ensures infohash in Run(a).lookupFutures && infohash in Run(b).lookupFutures ==>
      && Run(a).bfSeeders[infohash] == Run(b).bfSeeders[infohash]
      && Run(a).bfPeers[infohash] == Run(b).bfPeers[infohash]
  {
    FiltersAreUnions(a, infohash);
    FiltersAreUnions(b, infohash);
    SameParts(Heard(a, infohash), Heard(b, infohash));
    SameParts(Heard(b, infohash), Heard(a, infohash));
    UnionIgnoresOrder(Empty(), Seeds(Heard(a, infohash)), Seeds(Heard(b, infohash)));
    UnionIgnoresOrder(Empty(), Peers(Heard(a, infohash)), Peers(Heard(b, infohash)));
  }

  lemma SameParts(a: seq<(Filter, Filter)>, b: seq<(Filter, Filter)>)
    requires forall r :: r in a ==> r in b
    ensures forall f :: f in Seeds(a) ==> f in Seeds(b)
    ensures forall f :: f in Peers(a) ==> f in Peers(b)
  {
    forall i | 0 <= i < |a|
      ensures Seeds(a)[i] in Seeds(b) && Peers(a)[i] in Peers(b)
    {
      assert a[i] in a;
      var k :| 0 <= k < |b| && b[k] == a[i];
      assert Seeds(b)[k] == Seeds(a)[i] && Peers(b)[k] == Peers(a)[i];
    }
  }

  /** While a lookup goes on, no event adds zero bits to its filters. */
  lemma ZerosNeverGrow(events: seq<Event>, e: Event, infohash: Bytes)
    requires infohash in Run(events).lookupFutures && e != FinalizeLookup(infohash)
    ensures var (s, t) := (Run(events), Step(Run(events), e));
            && infohash in t.lookupFutures && t.lookupFutures[infohash] == s.lookupFutures[infohash]
            && Consistent(t)
            && ZeroBits(t.bfSeeders[infohash]) <= ZeroBits(s.bfSeeders[infohash])
            && ZeroBits(t.bfPeers[infohash]) <= ZeroBits(s.bfPeers[infohash])
  {
    var s := Run(events);
    StepKeepsConsistency(s, e);
    StepOnLive(s, e, infohash);
    if e.ReceivedBloomfilters? {
      CombiningAddsNoZeros(s.bfSeeders[infohash], e.seeds);
      CombiningAddsNoZeros(s.bfPeers[infohash], e.peers);
    }
  }

  /** When a lookup ends, whoever still waits gets the zero bits of the union of all counted responses. */
  lemma LookupReportsUnion(events: seq<Event>, infohash: Bytes)
    ensures var (s, t, heard) := (Run(events), Run(events + [FinalizeLookup(infohash)]), Heard(events, infohash));
            infohash in s.lookupFutures ==>
            var future := s.lookupFutures[infohash];
            && infohash !in t.lookupFutures
            && (forall id :: id in t.outstanding ==> t.outstanding[id] != infohash)
            && future in t.endings
            && (future !in s.endings ==>
                  t.endings[future] ==
                  Estimated(ZeroBits(Union(Empty(), Seeds(heard))), ZeroBits(Union(Empty(), Peers(heard)))))
  {
    FiltersAreUnions(events, infohash);
    assert (events + [FinalizeLookup(infohash)])[..|events|] == events;
  }

  /** One response with empty filters is enough for a lookup to end without a zero bit, whatever else it heard. */
  lemma EmptyResponseSaturates(events: seq<Event>, infohash: Bytes)
    requires ([], []) in Heard(events, infohash)
    ensures var (s, t) := (Run(events), Run(events + [FinalizeLookup(infohash)]));
            infohash in s.lookupFutures ==>
            var future := s.lookupFutures[infohash];
            future in t.endings && (future !in s.endings ==> t.endings[future] == Estimated(0, 0))
  {
    var heard := Heard(events, infohash);
    LookupReportsUnion(events, infohash);
    var k :| 0 <= k < |heard| && heard[k] == ([], []);
    assert Seeds(heard)[k] == [] && Peers(heard)[k] == [];
    EmptyFilterErasesAll(Empty(), Seeds(heard));
    EmptyFilterErasesAll(Empty(), Peers(heard));
  }
}
