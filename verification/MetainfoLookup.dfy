/**
 * Metainfo lookups: hidden downloads shared by everyone who waits for the same infohash, and user downloads
 * that may take an infohash over. Starting and removing a download are single steps here.
 */
module MetainfoLookup {
  import opened Binary

  type DownloadId = nat
  type WaiterId = nat

  /** An entry of metainfo_requests. */
  datatype Lookup = Lookup(download: DownloadId, pending: int)

  /** A get_metainfo call that is waiting, and the download it holds on to. */
  datatype Waiter = Waiter(infohash: Bytes, download: DownloadId)

  datatype State = State(
    downloads: map<Bytes, DownloadId>,
    requests: map<Bytes, Lookup>,
    waiters: map<WaiterId, Waiter>,
    hidden: set<DownloadId>,
    made: nat)

  datatype Event =
    | BeginLookup(w: WaiterId, infohash: Bytes)
    | EndLookup(w: WaiterId)
    | UserStart(infohash: Bytes)
    | UserRemove(infohash: Bytes)

  const INITIAL := State(map[], map[], map[], {}, 0)

  // ---------------------------------------------------------------- steps

  /** remove_download, for the map of downloads: only the download itself is taken out, not a successor. */
  function Without(downloads: map<Bytes, DownloadId>, infohash: Bytes, download: DownloadId): map<Bytes, DownloadId> {
    if infohash in downloads && downloads[infohash] == download then downloads - {infohash} else downloads
  }

  /** get_metainfo up to where it waits: join a lookup, watch an existing download, or start a hidden one. */
  function Begun(st: State, w: WaiterId, infohash: Bytes): State {
    if w in st.waiters then st
    else if infohash in st.requests then
      var lookup := st.requests[infohash];
      st.(requests := st.requests[infohash := lookup.(pending := lookup.pending + 1)],
          waiters := st.waiters[w := Waiter(infohash, lookup.download)])
    else if infohash in st.downloads then
      st.(waiters := st.waiters[w := Waiter(infohash, st.downloads[infohash])])
    else
      st.(downloads := st.downloads[infohash := st.made],
          requests := st.requests[infohash := Lookup(st.made, 1)],
          waiters := st.waiters[w := Waiter(infohash, st.made)],
          hidden := st.hidden + {st.made},
          made := st.made + 1)
  }

  /** The `finally` clause of get_metainfo, whatever ended the wait. */
  function Finished(st: State, w: WaiterId): State {
    if w !in st.waiters then st
    else
      var waiter := st.waiters[w];
      var infohash := waiter.infohash;
      var rest := st.(waiters := st.waiters - {w});
      if infohash !in st.requests then rest
      else if st.requests[infohash].pending - 1 <= 0 then
        rest.(downloads := Without(st.downloads, infohash, waiter.download), requests := st.requests - {infohash})
      else
        rest.(requests := st.requests[infohash :=
                st.requests[infohash].(pending := st.requests[infohash].pending - 1)])
  }

  /** start_download and start_handle for a visible download: a running lookup is cancelled and its download replaced. */
  function Started(st: State, infohash: Bytes): State {
    if infohash in st.downloads && infohash !in st.requests then st
    else if infohash !in st.requests then st.(downloads := st.downloads[infohash := st.made], made := st.made + 1)
    else
      st.(downloads := Without(st.downloads, infohash, st.requests[infohash].download)[infohash := st.made],
          requests := st.requests - {infohash},
          made := st.made + 1)
  }

  function Removed(st: State, infohash: Bytes): State {
    st.(downloads := st.downloads - {infohash})
  }

  function Step(st: State, e: Event): State {
    match e
    case BeginLookup(w, infohash) => Begun(st, w, infohash)
    case EndLookup(w) => Finished(st, w)
    case UserStart(infohash) => Started(st, infohash)
    case UserRemove(infohash) => Removed(st, infohash)
  }

  /**
   * What a call that begins holds on to and what it counts for: the download of the running lookup, which then has
   * one more waiter; else the listed download, without being counted; else a new hidden one, which is listed then.
   */
  lemma BeginHolds(st: State, w: WaiterId, infohash: Bytes)
    requires w !in st.waiters
    ensures var t := Step(st, BeginLookup(w, infohash));
            && w in t.waiters && t.waiters[w].infohash == infohash && t.waiters.Keys == st.waiters.Keys + {w}
            && (forall k :: k in st.waiters ==> t.waiters[k] == st.waiters[k])
            && (infohash in st.requests ==>
                 && t.waiters[w].download == st.requests[infohash].download && infohash in t.requests
                 && t.requests[infohash] == Lookup(st.requests[infohash].download, st.requests[infohash].pending + 1)
                 && t.downloads == st.downloads && t.hidden == st.hidden)
            && (infohash !in st.requests && infohash in st.downloads ==>
                 && t.waiters[w].download == st.downloads[infohash]
                 && t.requests == st.requests && t.downloads == st.downloads && t.hidden == st.hidden)
            && (infohash !in st.requests && infohash !in st.downloads ==>
                 && t.waiters[w].download == st.made && t.made == st.made + 1 && st.made in t.hidden
                 && t.downloads == st.downloads[infohash := st.made]
                 && infohash in t.requests && t.requests[infohash] == Lookup(st.made, 1))
            && (forall h :: h != infohash ==>
                 (h in t.requests <==> h in st.requests) && (h in st.requests ==> t.requests[h] == st.requests[h]))
  {
  }

  // ---------------------------------------------------------------- the invariant

  /** Who waits for this infohash. */
  function Waiting(waiters: map<WaiterId, Waiter>, infohash: Bytes): (ws: set<WaiterId>)
    ensures forall w :: w in ws <==> w in waiters && waiters[w].infohash == infohash
  {
    set w | w in waiters && waiters[w].infohash == infohash
  }

  /** A lookup's download is the one in the list, is hidden, and is held by exactly `pending` live waiters. */
  predicate LookupIsCounted(st: State, infohash: Bytes)
    requires infohash in st.requests
  {
    var lookup := st.requests[infohash];
    && infohash in st.downloads && st.downloads[infohash] == lookup.download && lookup.download in st.hidden
    && lookup.pending == |Waiting(st.waiters, infohash)| && lookup.pending >= 1
    && (forall w :: w in st.waiters && st.waiters[w].infohash == infohash ==> st.waiters[w].download == lookup.download)
  }

  predicate Inv(st: State) {
    AllCounted(st) && Anchored(st) && Numbered(st)
  }

  predicate AllCounted(st: State) {
    forall h :: h in st.requests ==> LookupIsCounted(st, h)
  }

  /** Hidden downloads in the list belong to lookups, and whoever waits, waits for a download in the list. */
  predicate Anchored(st: State) {
    && (forall h :: h in st.downloads && st.downloads[h] in st.hidden ==> h in st.requests)
    && (forall w :: w in st.waiters ==> st.waiters[w].infohash in st.downloads)
  }

  /** Downloads are told apart by numbers that have been given out. */
  predicate Numbered(st: State) {
    && (forall d :: d in st.hidden ==> d < st.made)
    && (forall h :: h in st.downloads ==> st.downloads[h] < st.made)
    && (forall h :: h in st.requests ==> st.requests[h].download < st.made)
    && (forall w :: w in st.waiters ==> st.waiters[w].download < st.made)
  }

  lemma WaitingAfterJoin(waiters: map<WaiterId, Waiter>, w: WaiterId, waiter: Waiter, infohash: Bytes)
    requires w !in waiters
    ensures Waiting(waiters[w := waiter], infohash) ==
            Waiting(waiters, infohash) + (if waiter.infohash == infohash then {w} else {})
    ensures |Waiting(waiters[w := waiter], infohash)| ==
            |Waiting(waiters, infohash)| + (if waiter.infohash == infohash then 1 else 0)
  {
    assert Waiting(waiters[w := waiter], infohash) ==
           Waiting(waiters, infohash) + (if waiter.infohash == infohash then {w} else {});
  }

  lemma WaitingAfterLeave(waiters: map<WaiterId, Waiter>, w: WaiterId, infohash: Bytes)
    requires w in waiters
    ensures Waiting(waiters - {w}, infohash) == Waiting(waiters, infohash) - {w}
    ensures |Waiting(waiters - {w}, infohash)| ==
            |Waiting(waiters, infohash)| - (if waiters[w].infohash == infohash then 1 else 0)
  {
    assert Waiting(waiters - {w}, infohash) == Waiting(waiters, infohash) - {w};
  }

  /** A lookup is still counted if its entry, its download and those who wait for it are as before. */
  lemma StaysCounted(st: State, t: State, h: Bytes)
    requires h in st.requests && LookupIsCounted(st, h)
    requires h in t.requests && t.requests[h] == st.requests[h]
    requires h in t.downloads && t.downloads[h] == st.downloads[h] && st.hidden <= t.hidden
    requires Waiting(t.waiters, h) == Waiting(st.waiters, h)
    requires forall w :: w in Waiting(st.waiters, h) ==> t.waiters[w] == st.waiters[w]
    ensures LookupIsCounted(t, h)
  {
    forall w | w in t.waiters && t.waiters[w].infohash == h
      ensures t.waiters[w].download == t.requests[h].download
    {
      assert w in Waiting(t.waiters, h);
    }
  }

  lemma JoinIsCounted(st: State, w: WaiterId, infohash: Bytes)
    requires w !in st.waiters && infohash in st.requests && LookupIsCounted(st, infohash)
    ensures LookupIsCounted(Begun(st, w, infohash), infohash)
  {
    var t := Begun(st, w, infohash);
    WaitingAfterJoin(st.waiters, w, t.waiters[w], infohash);
  }

  lemma BeginKeepsCounts(st: State, w: WaiterId, infohash: Bytes, h: Bytes)
    requires w !in st.waiters && h in st.requests && LookupIsCounted(st, h)
    ensures h in Begun(st, w, infohash).requests && LookupIsCounted(Begun(st, w, infohash), h)
  {
    var t := Begun(st, w, infohash);
    if h == infohash {
      JoinIsCounted(st, w, infohash);
    } else {
      WaitingAfterJoin(st.waiters, w, t.waiters[w], h);
      StaysCounted(st, t, h);
    }
  }

  lemma OpenIsCounted(st: State, w: WaiterId, infohash: Bytes)
    requires w !in st.waiters && infohash !in st.requests && infohash !in st.downloads
    requires Waiting(st.waiters, infohash) == {}
    ensures LookupIsCounted(Begun(st, w, infohash), infohash)
  {
    var t := Begun(st, w, infohash);
    WaitingAfterJoin(st.waiters, w, t.waiters[w], infohash);
    forall k | k in t.waiters && t.waiters[k].infohash == infohash
      ensures t.waiters[k].download == st.made
    {
      assert k in Waiting(t.waiters, infohash);
    }
  }

  lemma BeginKeepsAllCounted(st: State, w: WaiterId, infohash: Bytes)
    requires Inv(st)
    ensures AllCounted(Begun(st, w, infohash))
  {
    if w !in st.waiters {
      var t := Begun(st, w, infohash);
      forall h | h in t.requests
        ensures LookupIsCounted(t, h)
      {
        if h in st.requests {
          BeginKeepsCounts(st, w, infohash, h);
        } else {
          OpenIsCounted(st, w, infohash);
        }
      }
    }
  }

  lemma BeginKeepsAnchors(st: State, w: WaiterId, infohash: Bytes)
    requires Inv(st)
    ensures Anchored(Begun(st, w, infohash)) && Numbered(Begun(st, w, infohash))
  {
    if infohash in st.requests {
      assert LookupIsCounted(st, infohash);
    }
  }

  lemma BeginKeepsInv(st: State, w: WaiterId, infohash: Bytes)
    requires Inv(st)
    ensures Inv(Begun(st, w, infohash))
  {
    BeginKeepsAllCounted(st, w, infohash);
    BeginKeepsAnchors(st, w, infohash);
  }

  lemma FinishKeepsCounts(st: State, w: WaiterId, h: Bytes)
    requires w in st.waiters && h in st.requests && LookupIsCounted(st, h)
    ensures h in Finished(st, w).requests ==> LookupIsCounted(Finished(st, w), h)
    ensures h !in Finished(st, w).requests ==> Waiting(Finished(st, w).waiters, h) == {}
  {
    var t := Finished(st, w);
    WaitingAfterLeave(st.waiters, w, h);
    if h != st.waiters[w].infohash {
      StaysCounted(st, t, h);
    }
  }

  lemma FinishKeepsInv(st: State, w: WaiterId)
    requires Inv(st) && w in st.waiters
    ensures Inv(Finished(st, w))
  {
    var t := Finished(st, w);
    forall h | h in st.requests
      ensures h in t.requests ==> LookupIsCounted(t, h)
      ensures h !in t.requests ==> Waiting(t.waiters, h) == {}
    {
      FinishKeepsCounts(st, w, h);
    }
    forall k | k in t.waiters
      ensures t.waiters[k].infohash in t.downloads
    {
      assert k in Waiting(t.waiters, t.waiters[k].infohash);
    }
    var infohash := st.waiters[w].infohash;
    assert infohash in st.requests ==> LookupIsCounted(st, infohash);
  }

  lemma StartKeepsCounts(st: State, infohash: Bytes)
    requires AllCounted(st)
    ensures AllCounted(Started(st, infohash))
  {
    var t := Started(st, infohash);
    forall h | h in t.requests
      ensures LookupIsCounted(t, h)
    {
      StaysCounted(st, t, h);
    }
  }

  lemma StartKeepsInv(st: State, infohash: Bytes)
    requires Inv(st)
    ensures Inv(Started(st, infohash))
  {
    StartKeepsCounts(st, infohash);
    assert infohash in st.requests ==> LookupIsCounted(st, infohash);
  }

  /** Removing a download keeps the invariant exactly when nobody waits for its infohash. */
  lemma RemoveKeepsInvIff(st: State, infohash: Bytes)
    requires Inv(st)
    ensures Inv(Removed(st, infohash)) <==> Waiting(st.waiters, infohash) == {}
  {
    var t := Removed(st, infohash);
    if Waiting(st.waiters, infohash) == {} {
      forall h | h in t.requests
        ensures LookupIsCounted(t, h)
      {
        assert LookupIsCounted(st, h);
      }
    } else {
      var w :| w in Waiting(st.waiters, infohash);
      assert w in t.waiters;
    }
  }

  // ---------------------------------------------------------------- the manager

  class DownloadManager {
    var downloads: map<Bytes, DownloadId>
    var metainfoRequests: map<Bytes, Lookup>
    var waiters: map<WaiterId, Waiter>
    var hidden: set<DownloadId>
    var made: nat

    function Model(): State
      reads this
    {
      State(downloads, metainfoRequests, waiters, hidden, made)
    }

    constructor ()
      ensures Model() == INITIAL
    {
      downloads, metainfoRequests, waiters, hidden, made := map[], map[], map[], {}, 0;
    }

    method RemoveDownload(infohash: Bytes, download: DownloadId)
      modifies this`downloads
      ensures downloads == Without(old(downloads), infohash, download)
    {
      if infohash in downloads && downloads[infohash] == download {
        downloads := downloads - {infohash};
      }
    }

    /** start_download with start_handle, where a new download is told apart from all earlier ones. */
    method StartDownload(infohash: Bytes, isHidden: bool) returns (download: DownloadId)
      requires Numbered(Model())
      requires isHidden ==> infohash !in downloads && infohash !in metainfoRequests
      modifies this
      ensures !isHidden ==> Model() == Started(old(Model()), infohash)
      ensures isHidden ==>
        && download == old(made)
        && Model() == old(Model()).(downloads := old(downloads)[infohash := old(made)],
                                    hidden := old(hidden) + {old(made)}, made := old(made) + 1)
      ensures infohash in downloads && downloads[infohash] == download
    {
      if infohash in downloads && infohash !in metainfoRequests {
        return downloads[infohash];
      }
      download := made;
      made := made + 1;
      if isHidden {
        hidden := hidden + {download};
      }
      if infohash !in metainfoRequests || metainfoRequests[infohash].download == download {
        downloads := downloads[infohash := download];
      }
      if infohash in metainfoRequests && metainfoRequests[infohash].download != download {
        var cancelled := metainfoRequests[infohash].download;
        metainfoRequests := metainfoRequests - {infohash};
        RemoveDownload(infohash, cancelled);
        downloads := downloads[infohash := download];
      }
    }

    /** get_metainfo up to where it waits; `cached` tells whether an answer from the cache is given instead. */
    method BeginGetMetainfo(w: WaiterId, infohash: Bytes, cached: bool) returns (waits: bool)
      requires Numbered(Model()) && w !in waiters
      modifies this
      ensures waits <==> !cached
      ensures Model() == if cached then old(Model()) else Begun(old(Model()), w, infohash)
    {
      if cached {
        return false;
      }
      waits := true;
      var download;
      if infohash in metainfoRequests {
        var lookup := metainfoRequests[infohash];
        download := lookup.download;
        metainfoRequests := metainfoRequests[infohash := lookup.(pending := lookup.pending + 1)];
      } else if infohash in downloads {
        download := downloads[infohash];
      } else {
        download := StartDownload(infohash, true);
        metainfoRequests := metainfoRequests[infohash := Lookup(download, 1)];
      }
      waiters := waiters[w := Waiter(infohash, download)];
    }

    method EndGetMetainfo(w: WaiterId)
      requires w in waiters
      modifies this
      ensures Model() == Finished(old(Model()), w)
    {
      var Waiter(infohash, download) := waiters[w];
      waiters := waiters - {w};
      if infohash in metainfoRequests {
        var lookup := metainfoRequests[infohash];
        lookup := lookup.(pending := lookup.pending - 1);
        metainfoRequests := metainfoRequests[infohash := lookup];
        if lookup.pending <= 0 {
          RemoveDownload(infohash, download);
          metainfoRequests := metainfoRequests - {infohash};
        }
      }
    }
  }

  // ---------------------------------------------------------------- runs

  /** The user removes no download while someone waits for its infohash. */
  predicate Calm(events: seq<Event>)
    decreases |events|
  {
    events == [] ||
    var (init, last) := (events[..|events| - 1], events[|events| - 1]);
    Calm(init) && (last.UserRemove? ==> Waiting(Run(init).waiters, last.infohash) == {})
  }

  function Run(events: seq<Event>): State
    decreases |events|
  {
    if events == [] then INITIAL else Step(Run(events[..|events| - 1]), events[|events| - 1])
  }

  /** In every calm run, `pending` is the number of live waiters of each lookup. */
  lemma {:induction false} CalmRunsKeepInv(events: seq<Event>)
    requires Calm(events)
    ensures Inv(Run(events))
    decreases |events|
  {
    if events != [] {
      var (init, last) := (events[..|events| - 1], events[|events| - 1]);
      CalmRunsKeepInv(init);
      match last
      case BeginLookup(w, infohash) => BeginKeepsInv(Run(init), w, infohash);
      case EndLookup(w) =>
        if w in Run(init).waiters {
          FinishKeepsInv(Run(init), w);
        }
      case UserStart(infohash) => StartKeepsInv(Run(init), infohash);
      case UserRemove(infohash) => RemoveKeepsInvIff(Run(init), infohash);
    }
  }

  /** The hidden download of a lookup disappears exactly when its last waiter ends, and its entry with it. */
  lemma HiddenGoesWithLastWaiter(events: seq<Event>, w: WaiterId)
    requires Calm(events) && w in Run(events).waiters
    requires Run(events).waiters[w].infohash in Run(events).requests
    ensures var (st, t) := (Run(events), Finished(Run(events), w));
            var infohash := st.waiters[w].infohash;
            && (infohash !in t.downloads <==> Waiting(st.waiters, infohash) == {w})
            && (infohash !in t.requests <==> Waiting(st.waiters, infohash) == {w})
            && (forall h :: h in st.downloads && h != infohash ==> h in t.downloads && t.downloads[h] == st.downloads[h])
  {
    var st := Run(events);
    var infohash := st.waiters[w].infohash;
    CalmRunsKeepInv(events);
    assert LookupIsCounted(st, infohash);
    assert w in Waiting(st.waiters, infohash);
    OnlyWaiter(Waiting(st.waiters, infohash), w);
  }

  lemma OnlyWaiter(waiting: set<WaiterId>, w: WaiterId)
    requires w in waiting
    ensures |waiting| <= 1 <==> waiting == {w}
  {
    var rest := waiting - {w};
    assert waiting == rest + {w};
    assert rest == {} || |rest| > 0;
  }

  // ---------------------------------------------------------------- what user removals cannot disturb

  /** A visible download in the list is no download of a lookup. */
  predicate VisibleIsFree(st: State) {
    forall h :: h in st.downloads && st.downloads[h] !in st.hidden ==> h !in st.requests
  }

  /** Every lookup counts at least one waiter, and no more than there are. */
  predicate PendingIsBounded(st: State) {
    forall h :: h in st.requests ==> 1 <= st.requests[h].pending <= |Waiting(st.waiters, h)|
  }

  lemma StepKeepsNumbers(st: State, e: Event)
    requires Numbered(st)
    ensures Numbered(Step(st, e))
  {
  }

  lemma StepKeepsVisibleFree(st: State, e: Event)
    requires Numbered(st) && VisibleIsFree(st)
    ensures VisibleIsFree(Step(st, e))
  {
  }

  lemma BeginKeepsPending(st: State, w: WaiterId, infohash: Bytes)
    requires PendingIsBounded(st)
    ensures PendingIsBounded(Begun(st, w, infohash))
  {
    var t := Begun(st, w, infohash);
    if w !in st.waiters {
      forall h | h in t.requests
        ensures 1 <= t.requests[h].pending <= |Waiting(t.waiters, h)|
      {
        WaitingAfterJoin(st.waiters, w, t.waiters[w], h);
      }
    }
  }

  lemma FinishKeepsBound(st: State, w: WaiterId, h: Bytes)
    requires w in st.waiters && h in st.requests && 1 <= st.requests[h].pending <= |Waiting(st.waiters, h)|
    ensures var t := Finished(st, w);
            h in t.requests ==> 1 <= t.requests[h].pending <= |Waiting(t.waiters, h)|
  {
    WaitingAfterLeave(st.waiters, w, h);
  }

  lemma FinishKeepsPending(st: State, w: WaiterId)
    requires PendingIsBounded(st)
    ensures PendingIsBounded(Finished(st, w))
  {
    var t := Finished(st, w);
    if w in st.waiters {
      forall h | h in t.requests
        ensures 1 <= t.requests[h].pending <= |Waiting(t.waiters, h)|
      {
        assert h in st.requests;
        FinishKeepsBound(st, w, h);
      }
    }
  }

  lemma StepKeepsPending(st: State, e: Event)
    requires PendingIsBounded(st)
    ensures PendingIsBounded(Step(st, e))
  {
    match e
    case BeginLookup(w, infohash) => BeginKeepsPending(st, w, infohash);
    case EndLookup(w) => FinishKeepsPending(st, w);
    case UserStart(infohash) =>
    case UserRemove(infohash) =>
  }

  /** In every run, whatever the user removes: downloads are numbered, visible ones free, and waiters counted. */
  lemma {:induction false} EveryRun(events: seq<Event>)
    ensures Numbered(Run(events)) && VisibleIsFree(Run(events)) && PendingIsBounded(Run(events))
    decreases |events|
  {
    if events != [] {
      var (st, e) := (Run(events[..|events| - 1]), events[|events| - 1]);
      EveryRun(events[..|events| - 1]);
      StepKeepsNumbers(st, e);
      StepKeepsVisibleFree(st, e);
      StepKeepsPending(st, e);
    }
  }

  /** In every run, a download that the user started stays until the user removes it, whatever lookups begin or end. */
  lemma UserDownloadStays(events: seq<Event>, e: Event, infohash: Bytes)
    requires infohash in Run(events).downloads && Run(events).downloads[infohash] !in Run(events).hidden
    requires e != UserRemove(infohash)
    ensures var (st, t) := (Run(events), Step(Run(events), e));
            infohash in t.downloads && t.downloads[infohash] == st.downloads[infohash]
            && t.downloads[infohash] !in t.hidden
  {
    EveryRun(events);
    VisibleStays(Run(events), e, infohash);
  }

  lemma VisibleStays(st: State, e: Event, infohash: Bytes)
    requires Numbered(st) && VisibleIsFree(st)
    requires infohash in st.downloads && st.downloads[infohash] !in st.hidden
    requires e != UserRemove(infohash)
    ensures var t := Step(st, e);
            infohash in t.downloads && t.downloads[infohash] == st.downloads[infohash]
            && t.downloads[infohash] !in t.hidden
  {
    assert infohash !in st.requests && st.downloads[infohash] != st.made;
  }

  // ---------------------------------------------------------------- hidden downloads that are left behind

  /** Every hidden download in the list is the one of a running lookup, which will remove it. */
  predicate NoOrphan(st: State) {
    forall h :: h in st.downloads && st.downloads[h] in st.hidden ==>
      h in st.requests && st.requests[h].download == st.downloads[h]
  }

  /** The wait that ends is the last one counted, and was for another download than the hidden one in the list. */
  predicate LeavesOrphan(st: State, e: Event) {
    && e.EndLookup? && e.w in st.waiters
    && var (h, download) := (st.waiters[e.w].infohash, st.waiters[e.w].download);
       && h in st.requests && st.requests[h].pending <= 1
       && h in st.downloads && st.downloads[h] in st.hidden && st.downloads[h] != download
  }

  /** The end of a wait leaves a hidden download behind exactly then, and no other event ever does. */
  lemma OrphanIff(st: State, e: Event)
    requires NoOrphan(st) && Numbered(st)
    ensures NoOrphan(Step(st, e)) <==> !LeavesOrphan(st, e)
  {
    var t := Step(st, e);
    match e
    case EndLookup(w) =>
      if w in st.waiters {
        FinishOrphansIff(st, w);
      }
    case BeginLookup(w, infohash) =>
    case UserStart(infohash) =>
    case UserRemove(infohash) =>
  }

  lemma FinishOrphansIff(st: State, w: WaiterId)
    requires NoOrphan(st) && w in st.waiters
    ensures NoOrphan(Finished(st, w)) <==> !LeavesOrphan(st, EndLookup(w))
  {
    var (t, h) := (Finished(st, w), st.waiters[w].infohash);
    if LeavesOrphan(st, EndLookup(w)) {
      assert h in t.downloads && t.downloads[h] in t.hidden && h !in t.requests;
    }
  }

  predicate NeverOrphaned(events: seq<Event>) {
    NoOrphan(Run(events)) && (events == [] || NeverOrphaned(events[..|events| - 1]))
  }

  predicate NeverLeavesOrphan(events: seq<Event>) {
    events == [] ||
    var init := events[..|events| - 1];
    NeverLeavesOrphan(init) && !LeavesOrphan(Run(init), events[|events| - 1])
  }

  /** Over any run, user removals included: no hidden download is ever left behind exactly if no wait ends like that. */
  lemma {:induction false} NeverOrphanedIff(events: seq<Event>)
    ensures NeverOrphaned(events) <==> NeverLeavesOrphan(events)
    decreases |events|
  {
    if events != [] {
      var init := events[..|events| - 1];
      NeverOrphanedIff(init);
      EveryRun(init);
      if NoOrphan(Run(init)) {
        OrphanIff(Run(init), events[|events| - 1]);
      }
    }
  }

  /** A hidden download in the list that no lookup has. */
  predicate IsOrphan(st: State, h: Bytes) {
    h in st.downloads && st.downloads[h] in st.hidden && h !in st.requests
  }

  /** A hidden download that is left behind stays, and stays hidden, until the user removes it. */
  lemma OrphanStays(st: State, e: Event, h: Bytes)
    requires IsOrphan(st, h) && e != UserRemove(h)
    ensures IsOrphan(Step(st, e), h) && Step(st, e).downloads[h] == st.downloads[h]
  {
  }

  lemma {:induction false} OrphanStaysForEver(events: seq<Event>, more: seq<Event>, h: Bytes)
    requires IsOrphan(Run(events), h) && forall i :: 0 <= i < |more| ==> more[i] != UserRemove(h)
    ensures IsOrphan(Run(events + more), h) && Run(events + more).downloads[h] == Run(events).downloads[h]
    decreases |more|
  {
    if more == [] {
      assert events + more == events;
    } else {
      var (init, last) := (more[..|more| - 1], more[|more| - 1]);
      OrphanStaysForEver(events, init, h);
      RunAppend(events + init, last);
      assert events + more == (events + init) + [last];
      OrphanStays(Run(events + init), last, h);
    }
  }

  /** As long as none is left behind, each hidden download in the list has a live waiter; and so in every calm run. */
  lemma HiddenHasWaiter(events: seq<Event>, infohash: Bytes)
    requires infohash in Run(events).downloads && Run(events).downloads[infohash] in Run(events).hidden
    ensures NoOrphan(Run(events)) ==> Waiting(Run(events).waiters, infohash) != {}
    ensures Calm(events) ==> NoOrphan(Run(events))
  {
    EveryRun(events);
    if Calm(events) {
      CalmLeavesNothing(events);
    }
  }

  lemma CalmLeavesNothing(events: seq<Event>)
    requires Calm(events)
    ensures NoOrphan(Run(events))
  {
    CalmRunsKeepInv(events);
    var st := Run(events);
    forall h | h in st.downloads && st.downloads[h] in st.hidden
      ensures h in st.requests && st.requests[h].download == st.downloads[h]
    {
      assert LookupIsCounted(st, h);
    }
  }

  /**
   * In every run: right after the user starts a download it is in the list and free, and it is visible unless a
   * hidden one was left behind for its infohash, which the user is then given instead.
   */
  lemma UserStartTakesOver(events: seq<Event>, infohash: Bytes)
    ensures var (st, t) := (Run(events), Step(Run(events), UserStart(infohash)));
            && infohash in t.downloads && infohash !in t.requests
            && (t.downloads[infohash] !in t.hidden <==> !IsOrphan(st, infohash))
            && (Calm(events) ==> !IsOrphan(st, infohash))
  {
    EveryRun(events);
    if Calm(events) {
      CalmLeavesNothing(events);
    }
  }

  /** A removal during a lookup that leaves nothing behind. */
  lemma HarmlessRemoval()
    ensures var h: Bytes := [1];
            var events := [] + [UserStart(h)] + [BeginLookup(1, h)] + [UserRemove(h)] + [EndLookup(1)];
            !Calm(events) && NeverOrphaned(events)
  {
    var h: Bytes := [1];
    var e1 := [] + [UserStart(h)];
    var e2 := e1 + [BeginLookup(1, h)];
    var e3 := e2 + [UserRemove(h)];
    var e4 := e3 + [EndLookup(1)];
    RunAppend([], UserStart(h));
    RunAppend(e1, BeginLookup(1, h));
    assert Run(e2) == State(map[h := 0], map[], map[1 := Waiter(h, 0)], {}, 1);
    RunAppend(e2, UserRemove(h));
    assert Run(e3) == State(map[], map[], map[1 := Waiter(h, 0)], {}, 1);
    RunAppend(e3, EndLookup(1));
    assert e1[..0] == [] && e2[..1] == e1 && e3[..2] == e2 && e4[..3] == e3;
    assert 1 in Waiting(Run(e2).waiters, h);
    assert !Calm(e3);
    LeavesNone([], UserStart(h));
    LeavesNone(e1, BeginLookup(1, h));
    LeavesNone(e2, UserRemove(h));
    LeavesNone(e3, EndLookup(1));
    NeverOrphanedIff(e4);
  }

  lemma LeavesNone(events: seq<Event>, e: Event)
    requires NeverLeavesOrphan(events) && !LeavesOrphan(Run(events), e)
    ensures NeverLeavesOrphan(events + [e])
  {
    assert (events + [e])[..|events|] == events;
  }

  /**
   * What goes wrong otherwise: an old waiter ends a lookup it never joined, its hidden download stays, and it is
   * what the user gets who starts the download afterwards.
   */
  lemma RemovalDuringLookupLeaksHidden()
    ensures var h: Bytes := [1];
            var events := [] + [UserStart(h)] + [BeginLookup(1, h)] + [UserRemove(h)] + [BeginLookup(2, h)]
                          + [EndLookup(1)] + [EndLookup(2)];
            var st := Run(events);
            && st.waiters == map[] && h in st.downloads && st.downloads[h] in st.hidden && h !in st.requests
            && Step(st, UserStart(h)) == st
  {
    var h: Bytes := [1];
    var e1 := [] + [UserStart(h)];
    var e2 := e1 + [BeginLookup(1, h)];
    var e3 := e2 + [UserRemove(h)];
    var e4 := e3 + [BeginLookup(2, h)];
    var e5 := e4 + [EndLookup(1)];
    RunAppend([], UserStart(h));
    assert Run(e1) == State(map[h := 0], map[], map[], {}, 1);
    RunAppend(e1, BeginLookup(1, h));
    assert Run(e2) == State(map[h := 0], map[], map[1 := Waiter(h, 0)], {}, 1);
    RunAppend(e2, UserRemove(h));
    assert Run(e3) == State(map[], map[], map[1 := Waiter(h, 0)], {}, 1);
    RunAppend(e3, BeginLookup(2, h));
    assert Run(e4) == State(map[h := 1], map[h := Lookup(1, 1)], map[1 := Waiter(h, 0), 2 := Waiter(h, 1)], {1}, 2);
    RunAppend(e4, EndLookup(1));
    assert Run(e5) == State(map[h := 1], map[], map[2 := Waiter(h, 1)], {1}, 2);
    RunAppend(e5, EndLookup(2));
  }

  lemma RunAppend(events: seq<Event>, e: Event)
    ensures Run(events + [e]) == Step(Run(events), e)
  {
    assert (events + [e])[..|events|] == events;
  }
}
