/** When one piece of health information replaces another, and what runs of replacements can and cannot do. */
module HealthOrder {
  import opened Binary

  const TOLERABLE_TIME_DRIFT: int := 60
  const TORRENT_CHECK_WINDOW: int := 60
  const HEALTH_FRESHNESS_SECONDS: int := 14400

  /** ShouldReplace raises an error for different torrents. */
  datatype Verdict = Replace | Keep | DifferentTorrents

  /** Times are whole seconds; `now` is the clock reading at the moment of the comparison. */
  datatype HealthInfo = HealthInfo(infohash: Bytes, seeders: int, leechers: int, lastCheck: int, selfChecked: bool) {

    predicate IsValid(now: int) {
      seeders >= 0 && leechers >= 0 && lastCheck < now + TOLERABLE_TIME_DRIFT
    }

    predicate Old(now: int) {
      lastCheck < now - HEALTH_FRESHNESS_SECONDS
    }

    predicate OlderThan(other: HealthInfo) {
      lastCheck < other.lastCheck - TORRENT_CHECK_WINDOW
    }

    predicate MuchOlderThan(other: HealthInfo) {
      lastCheck + HEALTH_FRESHNESS_SECONDS < other.lastCheck
    }

    /** The tuple comparison (seeders, leechers) > (other.seeders, other.leechers). */
    predicate Outnumbers(other: HealthInfo) {
      seeders > other.seeders || (seeders == other.seeders && leechers > other.leechers)
    }

    function ShouldReplace(prev: HealthInfo, now: int): Verdict {
      if infohash != prev.infohash then DifferentTorrents
      else if !IsValid(now) then Keep
      else if selfChecked then
        if !prev.selfChecked || prev.OlderThan(this) || Outnumbers(prev) then Replace else Keep
      else if OlderThan(prev) then Keep
      else if prev.selfChecked && !prev.Old(now) then Keep
      else if prev.MuchOlderThan(this) then Replace
      else if Outnumbers(prev) then Replace
      else Keep
    }

    predicate SameNumbers(other: HealthInfo) {
      seeders == other.seeders && leechers == other.leechers && lastCheck == other.lastCheck
    }
  }

  /** When an info replaces another of the same torrent, in numbers of seconds, seeders and leechers. */
  lemma ReplacesIff(a: HealthInfo, prev: HealthInfo, now: int)
    requires a.infohash == prev.infohash
    ensures a.ShouldReplace(prev, now) == Replace <==>
      && a.seeders >= 0 && a.leechers >= 0 && a.lastCheck - now < 60
      && var larger := a.seeders > prev.seeders || (a.seeders == prev.seeders && a.leechers > prev.leechers);
         if a.selfChecked then !prev.selfChecked || a.lastCheck - prev.lastCheck > 60 || larger
         else
           && a.lastCheck - prev.lastCheck >= -60
           && (prev.selfChecked ==> now - prev.lastCheck > 4 * 60 * 60)
           && (a.lastCheck - prev.lastCheck > 4 * 60 * 60 || larger)
  {
  }

  // ---------------------------------------------------------------- two infos

  /** Two infos that would each replace the other at the same time, named as the guards that let it happen. */
  predicate Contended(a: HealthInfo, b: HealthInfo, now: int) {
    && a.infohash == b.infohash && a.IsValid(now) && b.IsValid(now)
    && if a.selfChecked && b.selfChecked then
         (a.OlderThan(b) && a.Outnumbers(b)) || (b.OlderThan(a) && b.Outnumbers(a))
       else if a.selfChecked then
         a.Old(now) && !b.OlderThan(a) && (a.MuchOlderThan(b) || b.Outnumbers(a))
       else b.selfChecked && b.Old(now) && !a.OlderThan(b) && (b.MuchOlderThan(a) || a.Outnumbers(b))
  }

  /** Two remote infos never replace each other; other pairs do exactly when they are contended. */
  lemma MutualReplacementIff(a: HealthInfo, b: HealthInfo, now: int)
    ensures a.ShouldReplace(b, now) == Replace && b.ShouldReplace(a, now) == Replace <==> Contended(a, b, now)
    ensures !a.selfChecked && !b.selfChecked ==> !Contended(a, b, now)
  {
  }

  /** What the third info of a chain of replacements must meet to replace the first one without the second. */
  predicate Shortens(a: HealthInfo, d: HealthInfo, now: int) {
    if d.selfChecked then !a.selfChecked || a.OlderThan(d) || d.Outnumbers(a)
    else !d.OlderThan(a) && (a.selfChecked ==> a.Old(now)) && (a.MuchOlderThan(d) || d.Outnumbers(a))
  }

  /**
   * When a chain of two replacements can be shortened. Among remote infos it depends on whether one of the steps
   * was taken because the earlier info was very old: without such a step the third info has the higher numbers,
   * and only its age may stand against it; with one it is recent enough, and only its numbers may.
   */
  lemma ChainShortensIff(a: HealthInfo, b: HealthInfo, d: HealthInfo, now: int)
    requires b.ShouldReplace(a, now) == Replace && d.ShouldReplace(b, now) == Replace
    ensures d.ShouldReplace(a, now) == Replace <==> Shortens(a, d, now)
    ensures !a.selfChecked && !b.selfChecked && !d.selfChecked ==>
      (Shortens(a, d, now) <==>
        if a.MuchOlderThan(b) || b.MuchOlderThan(d) then a.MuchOlderThan(d) || d.Outnumbers(a)
        else d.lastCheck >= a.lastCheck - TORRENT_CHECK_WINDOW)
  {
  }

  /**
   * Neither condition is always met: here the third info is older than the first by more than the window, and
   * in the second chain it is newer, but not by enough to make up for its lower numbers.
   */
  lemma ReplacementIsNotTransitive()
    ensures exists a: HealthInfo, b: HealthInfo, d: HealthInfo, now: int ::
      && !a.selfChecked && !b.selfChecked && !d.selfChecked
      && b.ShouldReplace(a, now) == Replace && d.ShouldReplace(b, now) == Replace && d.ShouldReplace(a, now) == Keep
    ensures var (a, b, d) := (Reported(1, 1000), Reported(2, 950), Reported(3, 900));
            b.ShouldReplace(a, 2000) == Replace && d.ShouldReplace(b, 2000) == Replace
            && d.ShouldReplace(a, 2000) == Keep && d.OlderThan(a)
    ensures var (a, b, d) := (Reported(5, 0), Reported(1, 14401), Reported(2, 14390));
            b.ShouldReplace(a, 20000) == Replace && d.ShouldReplace(b, 20000) == Replace
            && d.ShouldReplace(a, 20000) == Keep && d.lastCheck > a.lastCheck
  {
    var (a, b, d) := (Reported(1, 1000), Reported(2, 950), Reported(3, 900));
    assert b.ShouldReplace(a, 2000) == Replace && d.ShouldReplace(b, 2000) == Replace && d.ShouldReplace(a, 2000) == Keep;
  }

  function Reported(seeders: int, lastCheck: int): HealthInfo {
    HealthInfo([], seeders, 0, lastCheck, false)
  }

  /** A remote info and the user's own check that replace each other at the same time. */
  lemma OwnAndRemoteContend()
    ensures var own := HealthInfo([], 5, 0, 0, true);
            var remote := Reported(1, 14401);
            && Contended(own, remote, 14402)
            && own.ShouldReplace(remote, 14402) == Replace && remote.ShouldReplace(own, 14402) == Replace
  {
  }

  // ---------------------------------------------------------------- runs of accepted remote updates

  /** Every info after the first is remote and replaced the one before it, at some reading of the clock. */
  ghost predicate AcceptedRun(run: seq<HealthInfo>) {
    && run != []
    && forall i :: 0 < i < |run| ==> AcceptedStep(run[i - 1], run[i])
  }

  ghost predicate AcceptedStep(prev: HealthInfo, next: HealthInfo) {
    !next.selfChecked && exists now :: next.ShouldReplace(prev, now) == Replace
  }

  /** Steps taken because the earlier info was very old; the others are taken for their numbers. */
  function Jumps(run: seq<HealthInfo>): nat {
    if |run| < 2 then 0
    else Jumps(run[..|run| - 1]) + if run[|run| - 2].MuchOlderThan(run[|run| - 1]) then 1 else 0
  }

  function Climbs(run: seq<HealthInfo>): nat {
    if |run| < 2 then 0
    else Climbs(run[..|run| - 1]) + if run[|run| - 2].MuchOlderThan(run[|run| - 1]) then 0 else 1
  }

  lemma PrefixAccepted(run: seq<HealthInfo>)
    requires AcceptedRun(run) && |run| > 1
    ensures AcceptedRun(run[..|run| - 1]) && AcceptedStep(run[|run| - 2], run[|run| - 1])
  {
    var init := run[..|run| - 1];
    forall i | 0 < i < |init|
      ensures AcceptedStep(init[i - 1], init[i])
    {
      assert AcceptedStep(run[i - 1], run[i]);
    }
    assert AcceptedStep(run[|run| - 1 - 1], run[|run| - 1]);
  }

  /** A jump gains more than four hours; a climb loses at most the check window, and gains in numbers. */
  lemma StepBalance(prev: HealthInfo, next: HealthInfo)
    requires AcceptedStep(prev, next)
    ensures if prev.MuchOlderThan(next) then next.lastCheck - prev.lastCheck >= HEALTH_FRESHNESS_SECONDS + 1
            else next.lastCheck - prev.lastCheck >= -TORRENT_CHECK_WINDOW && next.Outnumbers(prev)
  {
  }

  lemma {:induction false} RunBalance(run: seq<HealthInfo>)
    requires AcceptedRun(run)
    ensures Jumps(run) + Climbs(run) == |run| - 1
    ensures run[|run| - 1].lastCheck - run[0].lastCheck
            >= (HEALTH_FRESHNESS_SECONDS + 1) * Jumps(run) - TORRENT_CHECK_WINDOW * Climbs(run)
    ensures Jumps(run) == 0 && |run| > 1 ==> run[|run| - 1].Outnumbers(run[0])
    decreases |run|
  {
    if |run| > 1 {
      var init := run[..|run| - 1];
      PrefixAccepted(run);
      RunBalance(init);
      StepBalance(run[|run| - 2], run[|run| - 1]);
    }
  }

  /**
   * A run of accepted remote updates can come back to the numbers it started from, but only with a very old
   * info on the way, and with more than 240 climbs for each one.
   */
  lemma CyclesAreLong(run: seq<HealthInfo>)
    requires AcceptedRun(run) && |run| > 1
    requires run[|run| - 1].SameNumbers(run[0])
    ensures Jumps(run) >= 1
    ensures 60 * Climbs(run) >= 14401 * Jumps(run)
    ensures Climbs(run) > 240 * Jumps(run)
  {
    RunBalance(run);
  }

  /** Climbing by one seeder and back in time by a minute. */
  function Rung(k: nat): HealthInfo {
    HealthInfo([], k, 0, 20000 - 60 * k, false)
  }

  function Ladder(n: nat): (run: seq<HealthInfo>)
    ensures |run| == n + 1
    ensures forall k :: 0 <= k <= n ==> run[k] == Rung(k)
  {
    seq(n + 1, k requires 0 <= k => Rung(k))
  }

  lemma {:induction false} LadderClimbs(n: nat)
    ensures AcceptedRun(Ladder(n)) && Jumps(Ladder(n)) == 0
  {
    var run := Ladder(n);
    forall i | 0 < i < |run|
      ensures AcceptedStep(run[i - 1], run[i])
    {
      assert Rung(i).ShouldReplace(Rung(i - 1), 30000) == Replace;
    }
    if n > 0 {
      assert run[..n] == Ladder(n - 1);
      LadderClimbs(n - 1);
    }
  }

  /** The bound is met: 241 climbs and one jump lead back to the start, so such cycles do occur. */
  lemma ShortestCycle()
    ensures var run := Ladder(241) + [Rung(0)];
            && AcceptedRun(run) && run[|run| - 1].SameNumbers(run[0])
            && Jumps(run) == 1 && Climbs(run) == 241
  {
    var run := Ladder(241) + [Rung(0)];
    LadderClimbs(241);
    assert Rung(0).ShouldReplace(Rung(241), 30000) == Replace;
    forall i | 0 < i < |run|
      ensures AcceptedStep(run[i - 1], run[i])
    {
      if i <= 241 {
        assert AcceptedStep(Ladder(241)[i - 1], Ladder(241)[i]);
      }
    }
    assert run[..242] == Ladder(241);
    RunBalance(run);
  }
}

/** The health records of torrents, updated by messages from peers and by the user's own checks. */
module HealthStore {
  import opened Binary
  import opened HealthOrder

  type Records = map<Bytes, HealthInfo>

  /** Every record is stored under its own infohash, so the comparison never meets different torrents. */
  predicate Keyed(records: Records) {
    forall k :: k in records ==> records[k].infohash == k
  }

  /** process_torrent_health: a record made for unknown torrents, then the comparison with the record. */
  function AfterRemote(records: Records, health: HealthInfo, now: int): Records {
    if !health.IsValid(now) then records
    else
      var known := if health.infohash in records then records else records[health.infohash := health];
      if health.ShouldReplace(known[health.infohash], now).Replace? then
        known[health.infohash := health.(selfChecked := false)]
      else known
  }

  /** update_torrent_health: only for known torrents and self-checked information. */
  predicate AcceptsOwn(records: Records, health: HealthInfo, now: int) {
    && health.IsValid(now) && health.selfChecked && health.infohash in records
    && health.ShouldReplace(records[health.infohash], now).Replace?
  }

  function AfterOwn(records: Records, health: HealthInfo, now: int): Records {
    if AcceptsOwn(records, health, now) then records[health.infohash := health] else records
  }

  class TorrentStates {
    var records: Records
    var torrentsChecked: Records

    constructor ()
      ensures records == map[] && torrentsChecked == map[]
    {
      records, torrentsChecked := map[], map[];
    }

    method ProcessTorrentHealth(health: HealthInfo, now: int) returns (added: bool)
      modifies this`records
      ensures records == AfterRemote(old(records), health, now)
      ensures added <==> health.IsValid(now) && health.infohash !in old(records)
    {
      if !health.IsValid(now) {
        return false;
      }
      added := health.infohash !in records;
      if added {
        records := records[health.infohash := health];
      }
      var prev := records[health.infohash];
      if health.ShouldReplace(prev, now).Replace? {
        records := records[health.infohash := health.(selfChecked := false)];
      }
    }

    method UpdateTorrentHealth(health: HealthInfo, now: int) returns (updated: bool)
      modifies this
      ensures records == AfterOwn(old(records), health, now)
      ensures updated <==> AcceptsOwn(old(records), health, now)
      ensures torrentsChecked == if updated then old(torrentsChecked)[health.infohash := health] else old(torrentsChecked)
    {
      if !health.IsValid(now) || !health.selfChecked {
        return false;
      }
      if health.infohash !in records {
        return false;
      }
      var prev := records[health.infohash];
      if !health.ShouldReplace(prev, now).Replace? {
        return false;
      }
      records := records[health.infohash := health];
      torrentsChecked := torrentsChecked[health.infohash := health];
      updated := true;
    }
  }

  // ---------------------------------------------------------------- runs

  /** A peer's message, the user's own check, or new metadata, which makes an all-zero record for its torrent. */
  datatype Event =
    | Remote(health: HealthInfo, now: int)
    | Own(health: HealthInfo, now: int)
    | NewMetadata(infohash: Bytes, now: int)

  function Step(records: Records, e: Event): Records {
    match e
    case Remote(health, now) => AfterRemote(records, health, now)
    case Own(health, now) => AfterOwn(records, health, now)
    case NewMetadata(infohash, _) =>
      if infohash in records then records else records[infohash := HealthInfo(infohash, 0, 0, 0, false)]
  }

  function RunAll(records: Records, events: seq<Event>): Records {
    if events == [] then records else Step(RunAll(records, events[..|events| - 1]), events[|events| - 1])
  }

  predicate Clocked(events: seq<Event>) {
    forall i, j :: 0 <= i <= j < |events| ==> 0 <= events[i].now <= events[j].now
  }

  /** Counts are not negative, and no check lies a minute or more in the future. */
  predicate Sane(records: Records, now: int) {
    forall k :: k in records ==> records[k].IsValid(now)
  }

  /** What a message does to the records: invalid ones nothing, valid ones make a record or replace one, as theirs. */
  lemma RemoteIsRecorded(records: Records, health: HealthInfo, now: int)
    requires Keyed(records)
    ensures var (after, h) := (AfterRemote(records, health, now), health.infohash);
            var valid := health.seeders >= 0 && health.leechers >= 0 && health.lastCheck < now + 60;
            && Keyed(after)
            && (forall k :: k != h ==> (k in after <==> k in records) && (k in records ==> after[k] == records[k]))
            && (h in after <==> h in records || valid)
            && (h !in records && valid ==> after[h] == health)
            && (h in records ==>
                 if health.ShouldReplace(records[h], now) == Replace then after[h] == health.(selfChecked := false)
                 else after[h] == records[h])
  {
  }

  /** New metadata makes a record without numbers for an unknown torrent, and changes no record. */
  lemma NewMetadataIsRecorded(records: Records, infohash: Bytes, now: int)
    ensures var after := Step(records, NewMetadata(infohash, now));
            && after.Keys == records.Keys + {infohash}
            && (forall k :: k in records ==> after[k] == records[k])
            && (infohash !in records ==> after[infohash] == HealthInfo(infohash, 0, 0, 0, false))
  {
  }

  /** An own check makes no record; it replaces one, and stays marked as own. */
  lemma OwnIsRecordedIff(records: Records, health: HealthInfo, now: int)
    requires Keyed(records)
    ensures var (after, h) := (AfterOwn(records, health, now), health.infohash);
            && after.Keys == records.Keys
            && (forall k :: k in records && k != h ==> after[k] == records[k])
            && (h in records && health != records[h] ==>
                 (after[h] == health <==>
                   health.selfChecked && health.ShouldReplace(records[h], now) == Replace))
            && (h in records ==> after[h] == health || after[h] == records[h])
  {
  }

  /** Every reachable record is sane, whatever the order of messages, own checks and new metadata. */
  lemma {:induction false} RecordsStaySane(events: seq<Event>)
    requires Clocked(events)
    ensures Keyed(RunAll(map[], events))
    ensures forall now :: 0 <= now && (events != [] ==> events[|events| - 1].now <= now) ==>
      Sane(RunAll(map[], events), now)
    ensures events != [] ==> forall k :: k in RunAll(map[], events) ==>
      var r := RunAll(map[], events)[k];
      r.seeders >= 0 && r.leechers >= 0 && r.lastCheck < events[|events| - 1].now + 60
    decreases |events|
  {
    if events != [] {
      var (init, last) := (events[..|events| - 1], events[|events| - 1]);
      assert forall i :: 0 <= i < |init| ==> init[i] == events[i];
      assert init != [] ==> init[|init| - 1].now <= last.now;
      RecordsStaySane(init);
      assert 0 <= events[|events| - 1].now;
      assert Sane(RunAll(map[], init), last.now);
    }
  }

  /** What the comparison makes of a remote info when the record is the user's own check, in full. */
  lemma OwnRecordReplacedIff(records: Records, health: HealthInfo, now: int)
    requires Keyed(records)
    requires !health.selfChecked && health.infohash in records && records[health.infohash].selfChecked
    ensures var own := records[health.infohash];
            AfterRemote(records, health, now) != records <==>
            && now > own.lastCheck + HEALTH_FRESHNESS_SECONDS
            && health.IsValid(now)
            && health.lastCheck >= own.lastCheck - TORRENT_CHECK_WINDOW
            && (health.lastCheck > own.lastCheck + HEALTH_FRESHNESS_SECONDS || health.Outnumbers(own))
  {
    var own := records[health.infohash];
    if health.ShouldReplace(own, now).Replace? {
      assert AfterRemote(records, health, now)[health.infohash] != own;
    }
  }

  /** For four hours, no sequence of remote messages and new metadata changes a record of the user's own check. */
  lemma {:induction false} OwnChecksAreProtected(records: Records, infohash: Bytes, events: seq<Event>)
    requires Keyed(records) && infohash in records && records[infohash].selfChecked
    requires forall i :: 0 <= i < |events| ==>
      || events[i].NewMetadata?
      || (events[i].Remote? && !events[i].health.selfChecked
          && events[i].now <= records[infohash].lastCheck + HEALTH_FRESHNESS_SECONDS)
    ensures Keyed(RunAll(records, events))
    ensures infohash in RunAll(records, events) && RunAll(records, events)[infohash] == records[infohash]
    decreases |events|
  {
    if events != [] {
      var (init, last) := (events[..|events| - 1], events[|events| - 1]);
      assert forall i :: 0 <= i < |init| ==> init[i] == events[i];
      OwnChecksAreProtected(records, infohash, init);
      if last.Remote? && last.health.infohash == infohash {
        OwnRecordReplacedIff(RunAll(records, init), last.health, last.now);
      }
    }
  }
}
