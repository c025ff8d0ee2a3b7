/** Culling peers towards a fixed share of normal peers, with exact arithmetic. */
module GoldenRatio {

  type Peer = nat

  datatype Choice = Stay | RemoveExit | RemoveNormal

  /** The share of peers that are no exits, by the counts the strategy uses. */
  function Share(total: nat, exits: nat): real
    requires total > 0
  {
    1.0 - exits as real / total as real
  }

  /** Which kind of peer a step removes. */
  function Decide(total: nat, exits: nat, golden: real, target: nat): Choice {
    if total <= target then Stay
    else if Share(total, exits) < golden then RemoveExit
    else if Share(total, exits) > golden then RemoveNormal
    else Stay
  }

  /** The surplus of normal peers over the share aimed at. */
  function Surplus(total: int, exits: int, golden: real): real {
    (total - exits) as real - golden * total as real
  }

  lemma ShareIsSurplus(total: nat, exits: nat, golden: real)
    requires total > 0
    ensures Share(total, exits) < golden <==> Surplus(total, exits, golden) < 0.0
    ensures Share(total, exits) > golden <==> Surplus(total, exits, golden) > 0.0
  {
    var n := total as real;
    var q := exits as real / n;
    assert q * n == exits as real;
    assert (Share(total, exits) - golden) * n == Surplus(total, exits, golden);
    var d := Share(total, exits) - golden;
    assert d > 0.0 ==> d * n > 0.0;
    assert d < 0.0 ==> d * n < 0.0;
  }

  // ---------------------------------------------------------------- the strategy

  class Strategy {
    const golden: real
    const target: nat
    var peers: set<Peer>

    constructor (golden: real, target: nat, peers: set<Peer>)
      requires target > 0 && 0.0 <= golden <= 1.0
      ensures this.golden == golden && this.target == target && this.peers == peers
    {
      this.golden, this.target, this.peers := golden, target, peers;
    }

    /**
     * The culling part of take_step; `exits` are the candidates known as exits, which need not be among the
     * peers, and each choice is made from a set that is not empty. With exits among the peers, the counts move
     * as in a run of culls.
     */
    method TakeStep(exits: set<Peer>) returns (choice: Choice)
      requires target > 0 && 0.0 <= golden <= 1.0
      modifies this`peers
      ensures choice == Decide(|old(peers)|, |exits|, golden, target)
      ensures choice.Stay? ==> peers == old(peers)
      ensures choice.RemoveExit? ==> exists p :: p in exits && peers == old(peers) - {p}
      ensures choice.RemoveNormal? ==> exists p :: p in old(peers) - exits && peers == old(peers) - {p}
      ensures exits <= old(peers) ==>
        |exits| <= |old(peers)| && Crowd(|peers|, |exits * peers|) == Cull(Crowd(|old(peers)|, |exits|), golden, target)
    {
      ghost var before := peers;
      var peerCount := |peers|;
      choice := Stay;
      if peerCount > target {
        var exitCount := |exits|;
        var ratio := 1.0 - exitCount as real / peerCount as real;
        if ratio < golden {
          ChoiceIsPossible(peers, exits, golden);
          var p :| p in exits;
          peers := peers - {p};
          choice := RemoveExit;
        } else if ratio > golden {
          ChoiceIsPossible(peers, exits, golden);
          var p :| p in peers - exits;
          peers := peers - {p};
          choice := RemoveNormal;
        }
      }
      if exits <= before {
        StepIsCull(before, exits, peers, choice, golden, target);
      }
    }
  }

  lemma Subset(a: set<Peer>, b: set<Peer>)
    requires a <= b
    ensures |a| <= |b|
  {
    assert b == a + (b - a);
  }

  /** An exit is removed only when there is one, and a normal peer only when there is one. */
  lemma ChoiceIsPossible(peers: set<Peer>, exits: set<Peer>, golden: real)
    requires peers != {} && 0.0 <= golden <= 1.0
    ensures Share(|peers|, |exits|) < golden ==> exits != {}
    ensures Share(|peers|, |exits|) > golden ==> peers - exits != {}
  {
    ShareIsSurplus(|peers|, |exits|, golden);
    var n := |peers| as real;
    assert 0.0 <= golden * n <= n by {
      assert n * (1.0 - golden) >= 0.0;
    }
    if peers - exits == {} {
      assert forall p :: p in peers ==> p in exits by {
        assert forall p :: p in peers ==> p !in peers - exits;
      }
      Subset(peers, exits);
    }
  }

  // ---------------------------------------------------------------- runs without arrivals

  /** How many peers and how many exits are left; exits are peers. */
  datatype Crowd = Crowd(total: nat, exits: nat)

  predicate Sound(c: Crowd) { c.exits <= c.total }

  function Cull(c: Crowd, golden: real, target: nat): (next: Crowd)
    requires Sound(c) && 0.0 <= golden <= 1.0 && target > 0
    ensures Sound(next)
  {
    match Decide(c.total, c.exits, golden, target)
    case Stay => c
    case RemoveExit => NoExitNoRemoval(c, golden); Crowd(c.total - 1, c.exits - 1)
    case RemoveNormal => NoExitNoRemoval(c, golden); Crowd(c.total - 1, c.exits)
  }

  lemma NoExitNoRemoval(c: Crowd, golden: real)
    requires Sound(c) && c.total > 0 && 0.0 <= golden <= 1.0
    ensures Share(c.total, c.exits) < golden ==> c.exits > 0
    ensures Share(c.total, c.exits) > golden ==> c.exits < c.total
  {
    ShareIsSurplus(c.total, c.exits, golden);
    assert c.total as real * (1.0 - golden) >= 0.0;
    assert golden * c.total as real >= 0.0;
  }

  /** What a step takes from the sets, a cull takes from their sizes. */
  lemma StepIsCull(before: set<Peer>, exits: set<Peer>, after: set<Peer>, choice: Choice, golden: real, target: nat)
    requires exits <= before && 0.0 <= golden <= 1.0 && target > 0
    requires choice == Decide(|before|, |exits|, golden, target)
    requires choice.Stay? ==> after == before
    requires choice.RemoveExit? ==> exists p :: p in exits && after == before - {p}
    requires choice.RemoveNormal? ==> exists p :: p in before - exits && after == before - {p}
    ensures |exits| <= |before|
    ensures Crowd(|after|, |exits * after|) == Cull(Crowd(|before|, |exits|), golden, target)
  {
    Subset(exits, before);
    match choice
    case Stay =>
      assert exits * after == exits;
    case RemoveExit =>
      var p :| p in exits && after == before - {p};
      assert exits * after == exits - {p};
    case RemoveNormal =>
      var p :| p in before - exits && after == before - {p};
      assert exits * after == exits;
  }

  function D(c: Crowd, golden: real): real { Surplus(c.total, c.exits, golden) }

  /** Close enough: no further off than a single removal can make it. */
  predicate Balanced(c: Crowd, golden: real) {
    golden - 1.0 <= D(c, golden) <= golden
  }

  /** Removing an exit raises the surplus by the share aimed at, removing a normal peer lowers it by the rest. */
  lemma StepMovesSurplus(c: Crowd, golden: real, target: nat)
    requires Sound(c) && 0.0 <= golden <= 1.0 && target > 0
    ensures var next := Cull(c, golden, target);
            && (next == c <==> c.total <= target || D(c, golden) == 0.0)
            && (next != c ==> next.total == c.total - 1)
            && (next != c && D(c, golden) < 0.0 ==> D(next, golden) == D(c, golden) + golden)
            && (next != c && D(c, golden) > 0.0 ==> D(next, golden) == D(c, golden) - (1.0 - golden))
  {
    if c.total > target {
      ShareIsSurplus(c.total, c.exits, golden);
      assert golden * (c.total - 1) as real == golden * c.total as real - golden;
    }
  }

  /** Once balanced, always balanced; and before that every step goes towards balance without passing it. */
  lemma StepTowardsBalance(c: Crowd, golden: real, target: nat)
    requires Sound(c) && 0.0 <= golden <= 1.0 && target > 0
    ensures var next := Cull(c, golden, target);
            && (Balanced(c, golden) ==> Balanced(next, golden))
            && (D(c, golden) > golden ==> golden - 1.0 <= D(next, golden) <= D(c, golden))
            && (D(c, golden) < golden - 1.0 ==> D(c, golden) <= D(next, golden) <= golden)
  {
    StepMovesSurplus(c, golden, target);
  }

  function After(c: Crowd, golden: real, target: nat, steps: nat): (r: Crowd)
    requires Sound(c) && 0.0 <= golden <= 1.0 && target > 0
    ensures Sound(r)
  {
    if steps == 0 then c else Cull(After(c, golden, target, steps - 1), golden, target)
  }

  lemma {:induction false} StepsCount(c: Crowd, golden: real, target: nat, steps: nat)
    requires Sound(c) && 0.0 <= golden <= 1.0 && target > 0
    ensures var r := After(c, golden, target, steps);
            r.total == c.total - steps || r.total <= target || D(r, golden) == 0.0
  {
    if steps > 0 {
      StepsCount(c, golden, target, steps - 1);
      StepMovesSurplus(After(c, golden, target, steps - 1), golden, target);
    }
  }

  /**
   * Without arrivals, culling has come to rest after at most as many steps as there are peers too many, and
   * then the crowd has the target size or exactly the share aimed at.
   */
  lemma CullingStops(c: Crowd, golden: real, target: nat)
    requires Sound(c) && 0.0 <= golden <= 1.0 && target > 0 && c.total >= target
    ensures var r := After(c, golden, target, c.total - target);
            && (r.total <= target || D(r, golden) == 0.0)
            && Cull(r, golden, target) == r
  {
    StepsCount(c, golden, target, c.total - target);
    StepMovesSurplus(After(c, golden, target, c.total - target), golden, target);
  }

  lemma {:induction false} StaysBalanced(c: Crowd, golden: real, target: nat, steps: nat)
    requires Sound(c) && 0.0 <= golden <= 1.0 && target > 0 && Balanced(c, golden)
    ensures Balanced(After(c, golden, target, steps), golden)
  {
    if steps > 0 {
      StaysBalanced(c, golden, target, steps - 1);
      StepTowardsBalance(After(c, golden, target, steps - 1), golden, target);
    }
  }

  lemma OneMore(n: nat, x: real)
    requires n > 0
    ensures n as real * x == (n - 1) as real * x + x
  {
  }

  /** A step from an excess below `bound` leaves balance, or an excess that is smaller by the removed peer's part. */
  lemma ExcessStep(c: Crowd, golden: real, target: nat, bound: real)
    requires Sound(c) && 0.0 <= golden <= 1.0 && target > 0
    requires Balanced(c, golden) || c.total <= target || golden < D(c, golden) <= bound
    ensures var next := Cull(c, golden, target);
            Balanced(next, golden) || next.total <= target || golden < D(next, golden) <= bound - (1.0 - golden)
  {
    StepTowardsBalance(c, golden, target);
    StepMovesSurplus(c, golden, target);
  }

  /** What is left of an excess after so many parts were paid. */
  function Owed(excess: real, part: real, steps: nat): real {
    if steps == 0 then excess else Owed(excess, part, steps - 1) - part
  }

  lemma {:induction false} OwedIs(excess: real, part: real, steps: nat)
    ensures Owed(excess, part, steps) == excess - steps as real * part
  {
    if steps > 0 {
      OwedIs(excess, part, steps - 1);
      OneMore(steps, part);
    }
  }

  lemma {:induction false} ExcessIsPaid(c: Crowd, golden: real, target: nat, steps: nat)
    requires Sound(c) && 0.0 <= golden <= 1.0 && target > 0 && D(c, golden) > golden
    ensures var r := After(c, golden, target, steps);
            || Balanced(r, golden) || r.total <= target
            || golden < D(r, golden) <= Owed(D(c, golden), 1.0 - golden, steps)
  {
    if steps > 0 {
      ExcessIsPaid(c, golden, target, steps - 1);
      ExcessStep(After(c, golden, target, steps - 1), golden, target, Owed(D(c, golden), 1.0 - golden, steps - 1));
    }
  }

  /** From an excess of normal peers, balance is reached after as many steps as the excess pays for, if culling lasts. */
  lemma ExcessShrinks(c: Crowd, golden: real, target: nat, steps: nat)
    requires Sound(c) && 0.0 <= golden <= 1.0 && target > 0 && D(c, golden) > golden
    ensures var r := After(c, golden, target, steps);
            || Balanced(r, golden) || r.total <= target
            || (D(r, golden) > golden && D(r, golden) <= D(c, golden) - steps as real * (1.0 - golden))
  {
    ExcessIsPaid(c, golden, target, steps);
    OwedIs(D(c, golden), 1.0 - golden, steps);
  }

  /** The same for an excess of exits. */
  lemma {:induction false} DeficitShrinks(c: Crowd, golden: real, target: nat, steps: nat)
    requires Sound(c) && 0.0 <= golden <= 1.0 && target > 0 && D(c, golden) < golden - 1.0
    ensures var r := After(c, golden, target, steps);
            || Balanced(r, golden) || r.total <= target
            || (D(r, golden) < golden - 1.0 && D(r, golden) >= D(c, golden) + steps as real * golden)
  {
    if steps > 0 {
      DeficitShrinks(c, golden, target, steps - 1);
      var before := After(c, golden, target, steps - 1);
      StepTowardsBalance(before, golden, target);
      StepMovesSurplus(before, golden, target);
      OneMore(steps, golden);
    }
  }

  /** So many steps pay for the distance from balance. */
  predicate Pays(c: Crowd, golden: real, steps: nat) {
    && D(c, golden) - golden <= steps as real * (1.0 - golden)
    && golden - 1.0 - D(c, golden) <= steps as real * golden
  }

  /** After so many steps without arrivals the crowd is balanced or no larger than the target. */
  lemma BalanceIsReached(c: Crowd, golden: real, target: nat, steps: nat)
    requires Sound(c) && 0.0 <= golden <= 1.0 && target > 0 && Pays(c, golden, steps)
    ensures var r := After(c, golden, target, steps); Balanced(r, golden) || r.total <= target
  {
    if D(c, golden) > golden {
      ExcessShrinks(c, golden, target, steps);
    } else if D(c, golden) < golden - 1.0 {
      DeficitShrinks(c, golden, target, steps);
    } else {
      StaysBalanced(c, golden, target, steps);
    }
  }

  /** As many steps as there are peers always pay. */
  lemma TotalPays(c: Crowd, golden: real)
    requires Sound(c) && 0.0 <= golden <= 1.0
    ensures Pays(c, golden, c.total)
  {
    assert D(c, golden) == (c.total - c.exits) as real - golden * c.total as real;
    assert c.exits as real >= 0.0 && c.exits as real <= c.total as real;
  }
}
