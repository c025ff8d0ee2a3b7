/** How many copies of a torrent the connected peers hold together. */
module Availability {

  /** A connected peer: the part it says it has completed, and the pieces it is known to have. */
  datatype Peer = Peer(completed: real, have: seq<bool>)

  predicate All(have: seq<bool>) {
    forall i :: 0 <= i < |have| ==> have[i]
  }

  predicate Complete(peer: Peer) {
    peer.completed == 1.0 || (|peer.have| > 0 && All(peer.have))
  }

  /** The peer is counted for piece i of n: it is not complete, and its bit field is one of this torrent. */
  predicate Adds(peer: Peer, n: nat, i: nat) {
    !Complete(peer) && |peer.have| == n && i < n && peer.have[i]
  }

  // ---------------------------------------------------------------- counting

  function Count<T>(s: seq<T>, p: T -> bool): nat {
    if |s| == 0 then 0 else Count(s[..|s| - 1], p) + if p(s[|s| - 1]) then 1 else 0
  }

  lemma {:induction false} CountOfConcat<T>(s: seq<T>, t: seq<T>, p: T -> bool)
    ensures Count(s + t, p) == Count(s, p) + Count(t, p)
  {
    if |t| == 0 {
      assert s + t == s;
    } else {
      CountOfConcat(s, t[..|t| - 1], p);
      assert (s + t)[..|s + t| - 1] == s + t[..|t| - 1];
    }
  }

  lemma Removed<T>(before: seq<T>, after: seq<T>, x: T)
    ensures multiset(before + after) == multiset(before + [x] + after) - multiset{x}
  {
  }

  /** The last element of one order stands somewhere in the other, and the rest are the same elements. */
  lemma Elsewhere<T>(rest: seq<T>, x: T, t: seq<T>) returns (before: seq<T>, after: seq<T>)
    requires multiset(rest + [x]) == multiset(t)
    ensures t == before + [x] + after
    ensures multiset(rest) == multiset(before + after)
  {
    assert x in multiset(rest + [x]);
    assert x in multiset(t);
    var k :| 0 <= k < |t| && t[k] == x;
    before, after := t[..k], t[k + 1..];
    assert t == before + [x] + after;
    Removed(before, after, x);
    Removed(rest, [], x);
    assert rest + [x] + [] == rest + [x] && rest + [] == rest;
  }

  lemma CountOfOne<T>(before: seq<T>, x: T, after: seq<T>, p: T -> bool)
    ensures Count(before + [x] + after, p) == Count(before + after, p) + if p(x) then 1 else 0
  {
    CountOfConcat(before, after, p);
    CountOfConcat(before + [x], after, p);
    assert (before + [x])[..|before|] == before;
  }

  /** Counting does not look at the order. */
  lemma {:induction false} CountIgnoresOrder<T>(s: seq<T>, t: seq<T>, p: T -> bool)
    requires multiset(s) == multiset(t)
    ensures Count(s, p) == Count(t, p)
  {
    if |s| == 0 {
      assert |multiset(t)| == 0;
    } else {
      var (rest, x) := (s[..|s| - 1], s[|s| - 1]);
      assert s == rest + [x];
      var before, after := Elsewhere(rest, x, t);
      CountIgnoresOrder(rest, before + after, p);
      CountOfOne(before, x, after, p);
    }
  }

  lemma {:induction false} CountGrows<T>(s: seq<T>, p: T -> bool, q: T -> bool)
    requires forall i :: 0 <= i < |s| && p(s[i]) ==> q(s[i])
    ensures Count(s, p) <= Count(s, q) <= |s|
  {
    if |s| > 0 {
      CountGrows(s[..|s| - 1], p, q);
    }
  }

  // ---------------------------------------------------------------- the value

  predicate IsMinimum(counts: seq<nat>, m: nat) {
    m in counts && forall i :: 0 <= i < |counts| ==> m <= counts[i]
  }

  function Minimum(counts: seq<nat>): (m: nat)
    requires |counts| > 0
    ensures IsMinimum(counts, m)
  {
    if |counts| == 1 then counts[0]
    else
      var rest := Minimum(counts[..|counts| - 1]);
      if rest <= counts[|counts| - 1] then rest else counts[|counts| - 1]
  }

  function Above(counts: seq<nat>, m: nat): nat {
    Count(counts, (c: nat) => c > m)
  }

  /** The complete copies that counts of pieces make up, and the part of the pieces there are more of. */
  function Spread(counts: seq<nat>): real
    requires |counts| > 0
  {
    var m := Minimum(counts);
    m as real + Above(counts, m) as real / |counts| as real
  }

  function Seeders(peers: seq<Peer>): nat {
    Count(peers, (p: Peer) => Complete(p))
  }

  function Holders(peers: seq<Peer>, n: nat, i: nat): nat {
    Count(peers, (p: Peer) => Adds(p, n, i))
  }

  function Merged(peers: seq<Peer>, n: nat): seq<nat> {
    seq(n, i requires 0 <= i < n => Holders(peers, n, i))
  }

  /** The availability of a torrent of n pieces, as get_availability adds it up. */
  function Available(peers: seq<Peer>, n: nat): real {
    Seeders(peers) as real + if n > 0 then Spread(Merged(peers, n)) else 0.0
  }

  // ---------------------------------------------------------------- get_availability

  /** One peer's bit field is added to the counts. */
  method MergeField(merged: seq<nat>, have: seq<bool>) returns (r: seq<nat>)
    requires |have| == |merged|
    ensures |r| == |merged|
    ensures forall i :: 0 <= i < |r| ==> r[i] == merged[i] + if have[i] then 1 else 0
  {
    r := merged;
    for i := 0 to |have|
      invariant |r| == |merged|
      invariant forall j :: 0 <= j < i ==> r[j] == merged[j] + if have[j] then 1 else 0
      invariant forall j :: i <= j < |r| ==> r[j] == merged[j]
    {
      if have[i] {
        r := r[i := r[i] + 1];
      }
    }
  }

  /** The two loops over the peers' bit fields. */
  method CountCopies(peers: seq<Peer>, n: nat) returns (seeders: nat, merged: seq<nat>)
    ensures seeders == Seeders(peers) && merged == Merged(peers, n)
  {
    seeders := 0;
    merged := seq(n, _ => 0);
    for k := 0 to |peers|
      invariant seeders == Seeders(peers[..k])
      invariant merged == Merged(peers[..k], n)
    {
      var peer := peers[k];
      ghost var seen := peers[..k];
      assert peers[..k + 1] == seen + [peer];
      OneMorePeer(seen, peer, n);
      if Complete(peer) {
        seeders := seeders + 1;
      } else if |peer.have| > 0 && |peer.have| == n {
        merged := MergeField(merged, peer.have);
      }
    }
    assert peers[..|peers|] == peers;
  }

  method GetAvailability(hasStatus: bool, peers: seq<Peer>, n: nat) returns (availability: real)
    ensures availability == if hasStatus then Available(peers, n) else 0.0
  {
    if !hasStatus {
      return 0.0;
    }
    var seeders, merged := CountCopies(peers, n);
    if |merged| > 0 {
      var m := Minimum(merged);
      var more := 0;
      for i := 0 to |merged|
        invariant more == Above(merged[..i], m)
      {
        assert merged[..i + 1][..i] == merged[..i];
        if merged[i] > m {
          more := more + 1;
        }
      }
      assert merged[..|merged|] == merged;
      return seeders as real + m as real + more as real / |merged| as real;
    }
    return seeders as real;
  }

  lemma OneMorePeer(peers: seq<Peer>, peer: Peer, n: nat)
    ensures Seeders(peers + [peer]) == Seeders(peers) + if Complete(peer) then 1 else 0
    ensures forall i :: 0 <= i < n ==>
              Merged(peers + [peer], n)[i] == Merged(peers, n)[i] + if Adds(peer, n, i) then 1 else 0
  {
    assert (peers + [peer])[..|peers|] == peers;
  }

  // ---------------------------------------------------------------- properties of the value

  /**
   * What one more peer counts for: one that completed everything or shows every piece, one whole copy; another one
   * its pieces, if its bit field has the right length, and nothing otherwise.
   */
  lemma PeerCounts(peers: seq<Peer>, peer: Peer, n: nat)
    ensures var all := peer.completed == 1.0 || (|peer.have| > 0 && forall i :: 0 <= i < |peer.have| ==> peer.have[i]);
            && (all ==> Available(peers + [peer], n) == Available(peers, n) + 1.0)
            && (!all && |peer.have| != n ==> Available(peers + [peer], n) == Available(peers, n))
            && (!all && |peer.have| == n ==>
                 && Seeders(peers + [peer]) == Seeders(peers)
                 && forall i :: 0 <= i < n ==>
                      Merged(peers + [peer], n)[i] == Merged(peers, n)[i] + if peer.have[i] then 1 else 0)
  {
    OneMorePeer(peers, peer, n);
    if Complete(peer) || |peer.have| != n {
      assert Merged(peers + [peer], n) == Merged(peers, n);
    }
  }

  lemma {:induction false} NotAllCounted<T>(s: seq<T>, k: nat, p: T -> bool)
    requires k < |s| && !p(s[k])
    ensures Count(s, p) < |s|
  {
    var n := |s| - 1;
    if k == n {
      CountGrows(s[..n], p, p);
    } else {
      NotAllCounted(s[..n], k, p);
    }
  }

  /** The copies of all pieces together, where those beyond a number are not counted. */
  function Capped(counts: seq<nat>, cap: nat): nat {
    if |counts| == 0 then 0
    else
      var last := counts[|counts| - 1];
      Capped(counts[..|counts| - 1], cap) + if last <= cap then last else cap
  }

  lemma {:induction false} CappedIs(counts: seq<nat>, m: nat)
    requires forall i :: 0 <= i < |counts| ==> m <= counts[i]
    ensures Capped(counts, m + 1) == m * |counts| + Above(counts, m)
  {
    if |counts| > 0 {
      CappedIs(counts[..|counts| - 1], m);
    }
  }

  lemma {:induction false} MinimumIs(counts: seq<nat>, m: nat)
    requires IsMinimum(counts, m)
    ensures Minimum(counts) == m
  {
    var k :| 0 <= k < |counts| && counts[k] == m;
    assert Minimum(counts) <= counts[k];
  }

  /** The value is an average over the pieces: each counts with its copies, but with one more than the rarest at most. */
  lemma {:induction false} SpreadIsAverage(counts: seq<nat>, m: nat)
    requires IsMinimum(counts, m)
    ensures Spread(counts) == Capped(counts, m + 1) as real / |counts| as real
  {
    MinimumIs(counts, m);
    CappedIs(counts, m);
    SpreadOf(counts, m, Above(counts, m));
    Averaged(Spread(counts), m, Above(counts, m), |counts|, Capped(counts, m + 1));
  }

  lemma {:induction false} SpreadOf(counts: seq<nat>, m: nat, more: nat)
    requires |counts| > 0 && Minimum(counts) == m && Above(counts, m) == more
    ensures Spread(counts) == m as real + more as real / |counts| as real
  {
  }

  lemma Averaged(average: real, m: nat, x: nat, n: nat, total: nat)
    requires n > 0 && average == m as real + x as real / n as real && total == m * n + x
    ensures average == total as real / n as real
  {
    var q := x as real / n as real;
    assert q * n as real == x as real;
    assert (m * n) as real == m as real * n as real;
    assert average * n as real == total as real;
  }

  /** Between the complete copies and one more. */
  lemma SpreadRange(counts: seq<nat>)
    requires |counts| > 0
    ensures Minimum(counts) as real <= Spread(counts) < Minimum(counts) as real + 1.0
  {
    var m := Minimum(counts);
    var k :| 0 <= k < |counts| && counts[k] == m;
    NotAllCounted(counts, k, (c: nat) => c > m);
    Quotient(Above(counts, m), |counts|);
  }

  lemma Quotient(x: nat, n: nat)
    requires x < n
    ensures 0.0 <= x as real / n as real < 1.0
  {
  }

  lemma QuotientGrows(x: nat, y: nat, n: nat)
    requires x <= y && n > 0
    ensures x as real / n as real <= y as real / n as real
  {
  }

  /** More copies of pieces never make it less. */
  lemma SpreadGrows(a: seq<nat>, b: seq<nat>)
    requires 0 < |a| == |b|
    requires forall i :: 0 <= i < |a| ==> a[i] <= b[i]
    ensures Spread(a) <= Spread(b)
  {
    var (m, n) := (Minimum(a), Minimum(b));
    SpreadRange(a);
    SpreadRange(b);
    if m == n {
      AboveGrows(a, b, m);
      QuotientGrows(Above(a, m), Above(b, m), |a|);
    } else {
      var k :| 0 <= k < |b| && b[k] == n;
      assert m <= a[k];
    }
  }

  lemma {:induction false} AboveGrows(a: seq<nat>, b: seq<nat>, m: nat)
    requires |a| == |b|
    requires forall i :: 0 <= i < |a| ==> a[i] <= b[i]
    ensures Above(a, m) <= Above(b, m)
  {
    if |a| > 0 {
      AboveGrows(a[..|a| - 1], b[..|b| - 1], m);
    }
  }

  /** The counts with so many copies of every piece on top. */
  function Raised(counts: seq<nat>, more: nat): seq<nat> {
    seq(|counts|, i requires 0 <= i < |counts| => counts[i] + more)
  }

  lemma SpreadOfRaised(counts: seq<nat>, more: nat)
    requires |counts| > 0
    ensures Spread(Raised(counts, more)) == Spread(counts) + more as real
  {
    var raised := Raised(counts, more);
    var (m, n) := (Minimum(counts), Minimum(raised));
    var k :| 0 <= k < |counts| && counts[k] == m;
    var l :| 0 <= l < |raised| && raised[l] == n;
    assert n <= raised[k] && m <= counts[l];
    AboveOfRaised(counts, more, m);
  }

  lemma {:induction false} AboveOfRaised(counts: seq<nat>, more: nat, m: nat)
    ensures Above(Raised(counts, more), m + more) == Above(counts, m)
  {
    if |counts| > 0 {
      var rest := counts[..|counts| - 1];
      AboveOfRaised(rest, more, m);
      assert Raised(counts, more)[..|counts| - 1] == Raised(rest, more);
    }
  }

  // ---------------------------------------------------------------- the promises

  /** The copies of a piece among the peers when a complete peer is one that has every piece. */
  function Copies(peers: seq<Peer>, n: nat): seq<nat> {
    seq(n, i requires 0 <= i < n => Count(peers, (p: Peer) => Complete(p) || Adds(p, n, i)))
  }

  /** A complete peer counts as one more copy of every piece. */
  lemma SeedersAreCopies(peers: seq<Peer>, n: nat)
    requires n > 0
    ensures Available(peers, n) == Spread(Copies(peers, n))
  {
    var (k, merged) := (Seeders(peers), Merged(peers, n));
    SpreadOfRaised(merged, k);
    forall i | 0 <= i < n
      ensures Copies(peers, n)[i] == Raised(merged, k)[i]
    {
      CountOfEither(peers, n, i);
    }
    assert Copies(peers, n) == Raised(merged, k);
  }

  lemma {:induction false} CountOfEither(peers: seq<Peer>, n: nat, i: nat)
    ensures Count(peers, (p: Peer) => Complete(p) || Adds(p, n, i)) == Seeders(peers) + Holders(peers, n, i)
  {
    if |peers| > 0 {
      CountOfEither(peers[..|peers| - 1], n, i);
    }
  }

  /** The order in which the peers are listed does not matter. */
  lemma OrderDoesNotMatter(peers: seq<Peer>, others: seq<Peer>, n: nat)
    requires multiset(peers) == multiset(others)
    ensures Available(peers, n) == Available(others, n)
  {
    CountIgnoresOrder(peers, others, (p: Peer) => Complete(p));
    forall i | 0 <= i < n
      ensures Holders(peers, n, i) == Holders(others, n, i)
    {
      CountIgnoresOrder(peers, others, (p: Peer) => Adds(p, n, i));
    }
    assert Merged(peers, n) == Merged(others, n);
  }

  /** Wherever a peer joins the list, it adds nothing at worst and one copy at best, which a complete one does. */
  lemma OnePeerAddsUpToOne(before: seq<Peer>, after: seq<Peer>, peer: Peer, n: nat)
    ensures var (less, more) := (Available(before + after, n), Available(before + [peer] + after, n));
            less <= more <= less + 1.0 && (Complete(peer) ==> more == less + 1.0)
  {
    var peers := before + after;
    OrderDoesNotMatter(before + [peer] + after, peers + [peer], n);
    OneMorePeer(peers, peer, n);
    if n > 0 {
      var (a, b) := (Merged(peers, n), Merged(peers + [peer], n));
      SpreadGrows(a, b);
      if Complete(peer) {
        assert a == b;
      } else {
        SpreadOfRaised(a, 1);
        SpreadGrows(b, Raised(a, 1));
      }
    }
  }

  /** The whole part is the complete peers and the fewest other holders of a piece. */
  lemma WholeCopies(peers: seq<Peer>, n: nat)
    requires n > 0
    ensures var k := (Seeders(peers) + Minimum(Merged(peers, n))) as real; k <= Available(peers, n) < k + 1.0
  {
    SpreadRange(Merged(peers, n));
  }
}
