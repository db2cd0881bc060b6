/**
 * streamcluster's search for the fee: legs of local search, each for one fee, between which the fee is raised or
 * lowered until the number of centers is right.
 */
module ClusterFees {
  import opened ClusterDraws
  import opened ClusterGain
  import opened ClusterSearch

  /** The bounds of the fee, the fee, and the running cost for it. */
  datatype Fee = Fee(low: real, high: real, z: real, cost: real)

  /**
   * One leg: the fee, the solution and the draw it starts with, the rounds of the rough search and what they lead
   * to, and the rounds of the finer one, if there is one.
   */
  datatype Leg = Leg(fee: Fee, start: Solution, from: nat, rough: seq<seq<nat>>, mid: Solution, midCost: real,
                     fine: seq<seq<nat>>, end: Solution, endCost: real)

  /** What is looked for: numbers of centers, among these candidates, with so many turns a round. */
  datatype Goal = Goal(kmin: nat, kmax: nat, feasible: seq<nat>, iter: nat)

  ghost function Centers(s: Solution): nat {
    |CenterSet(s.isCenter)|
  }

  /** Within a tenth of the bounds, or within two. */
  predicate AboutRight(kmin: nat, kmax: nat, k: nat) {
    (k as real <= 1.1 * (kmax as real) && k as real >= 0.9 * (kmin as real)) || (k <= kmax + 2 && k >= kmin - 2)
  }

  /** The rounds in orders, with the draws from p on, lead from s and cost to s' and cost', and there they end. */
  ghost predicate Searched(sp: Space, g: Goal, z: real, e: real, draws: nat -> Draw, p: nat, s: Solution, cost: real,
          orders: seq<seq<nat>>, s': Solution, cost': real) {
    && Running(sp, s, z, cost, orders, g.iter, e, g.feasible, s', cost', false)
    && OrdersDrawn(draws, p, g.feasible, orders)
  }

  /** The draw behind the rough search, and behind the leg. */
  ghost function Halfway(g: Goal, leg: Leg): nat {
    StartOf(leg.from, |g.feasible|, |leg.rough|)
  }

  ghost function LegEnd(g: Goal, leg: Leg): nat {
    StartOf(Halfway(g, leg), |g.feasible|, |leg.fine|)
  }

  ghost predicate LegOk(sp: Space, g: Goal, draws: nat -> Draw, leg: Leg) {
    var z := leg.fee.z;
    && Searched(sp, g, z, 0.1, draws, leg.from, leg.start, leg.fee.cost, leg.rough, leg.mid, leg.midCost)
    && if AboutRight(g.kmin, g.kmax, Centers(leg.mid)) then
         Searched(sp, g, z, 0.001, draws, Halfway(g, leg), leg.mid, leg.midCost, leg.fine, leg.end, leg.endCost)
       else leg.fine == [] && leg.end == leg.mid && leg.endCost == leg.midCost
  }

  /** With too many centers the fee goes up, halfway to the upper bound, and the cost with it. */
  ghost function Raised(kmax: nat, fee: Fee, k: nat): Fee {
    if k > kmax then
      var z := (fee.high + fee.z) / 2.0;
      Fee(fee.z, fee.high, z, fee.cost + (z - fee.z) * (k as real))
    else fee
  }

  /** With too few it goes down. */
  ghost function Lowered(kmin: nat, fee: Fee, k: nat): Fee {
    if k < kmin then
      var z := (fee.z + fee.low) / 2.0;
      Fee(fee.low, fee.z, z, fee.cost + (z - fee.z) * (k as real))
    else fee
  }

  ghost function NextFee(g: Goal, leg: Leg): Fee {
    var k := Centers(leg.end);
    Lowered(g.kmin, Raised(g.kmax, leg.fee.(cost := leg.endCost), k), k)
  }

  /** The number is right, or the bounds have met. */
  ghost predicate Good(g: Goal, leg: Leg) {
    g.kmin <= Centers(leg.end) <= g.kmax || NextFee(g, leg).low >= 0.999 * NextFee(g, leg).high
  }

  /** A leg starts with the solution of the one before, which was not good enough. */
  ghost predicate Follows(g: Goal, leg: Leg, leg': Leg) {
    !Good(g, leg) && leg'.start == leg.end && leg'.fee == NextFee(g, leg) && leg'.from == LegEnd(g, leg)
  }

  /** The search from the solution s, the draw p and the fee on. */
  ghost predicate Legs(sp: Space, g: Goal, draws: nat -> Draw, fee: Fee, s: Solution, p: nat, legs: seq<Leg>) {
    && (legs != [] ==> legs[0].fee == fee && legs[0].start == s && legs[0].from == p)
    && (forall i :: 0 <= i < |legs| ==> LegOk(sp, g, draws, legs[i]))
    && forall i :: 0 < i < |legs| ==> Follows(g, legs[i - 1], legs[i])
  }

  /** Where the search has got to: the fee, the solution, the draw, and whether it is over. */
  ghost predicate Stands(g: Goal, fee: Fee, s: Solution, p: nat, legs: seq<Leg>, now: Fee, s': Solution, p': nat,
          done: bool) {
    if legs == [] then now == fee && s' == s && p' == p && !done
    else
      var leg := legs[|legs| - 1];
      now == NextFee(g, leg) && s' == leg.end && p' == LegEnd(g, leg) && (done <==> Good(g, leg))
  }

  lemma NoLegs(sp: Space, g: Goal, draws: nat -> Draw, fee: Fee, s: Solution, p: nat)
    ensures Legs(sp, g, draws, fee, s, p, []) && Stands(g, fee, s, p, [], fee, s, p, false)
  {
  }

  lemma OneMoreLeg(sp: Space, g: Goal, draws: nat -> Draw, fee: Fee, s: Solution, p: nat, legs: seq<Leg>, leg: Leg)
    requires Legs(sp, g, draws, fee, s, p, legs) && LegOk(sp, g, draws, leg)
    requires Stands(g, fee, s, p, legs, leg.fee, leg.start, leg.from, false)
    ensures Legs(sp, g, draws, fee, s, p, legs + [leg])
    ensures Stands(g, fee, s, p, legs + [leg], NextFee(g, leg), leg.end, LegEnd(g, leg), Good(g, leg))
  {
    hide LegOk, NextFee, Good, LegEnd;
    var more := legs + [leg];
    forall i | 0 < i < |more| ensures Follows(g, more[i - 1], more[i]) {
      if i < |legs| { assert Follows(g, legs[i - 1], legs[i]); }
    }
  }

  /** The fee after a leg, step by step. */
  lemma NextFeeIs(g: Goal, leg: Leg, k: nat)
    requires k == Centers(leg.end)
    ensures var up := Raised(g.kmax, leg.fee.(cost := leg.endCost), k);
            NextFee(g, leg) == Lowered(g.kmin, up, k)
            && (Good(g, leg) <==> g.kmin <= k <= g.kmax
                                  || Lowered(g.kmin, up, k).low >= 0.999 * Lowered(g.kmin, up, k).high)
  {
    hide Raised, Lowered;
  }

  lemma RaisedIs(kmax: nat, fee: Fee, k: nat)
    ensures k <= kmax ==> Raised(kmax, fee, k) == fee
    ensures k > kmax ==>
              var z := (fee.high + fee.z) / 2.0;
              Raised(kmax, fee, k) == Fee(fee.z, fee.high, z, fee.cost + (z - fee.z) * (k as real))
  {
  }

  lemma LoweredIs(kmin: nat, fee: Fee, k: nat)
    ensures k >= kmin ==> Lowered(kmin, fee, k) == fee
    ensures k < kmin ==>
              var z := (fee.z + fee.low) / 2.0;
              Lowered(kmin, fee, k) == Fee(fee.low, fee.z, z, fee.cost + (z - fee.z) * (k as real))
  {
  }

  lemma RightIs(kmin: nat, kmax: nat, k: nat)
    ensures AboutRight(kmin, kmax, k)
        <==> (k as real <= 1.1 * (kmax as real) && k as real >= 0.9 * (kmin as real))
             || (k <= kmax + 2 && k >= kmin - 2)
  {
  }

  lemma IsSearched(sp: Space, g: Goal, z: real, e: real, draws: nat -> Draw, p: nat, s: Solution, cost: real,
          orders: seq<seq<nat>>, s': Solution, cost': real)
    requires Running(sp, s, z, cost, orders, g.iter, e, g.feasible, s', cost', false)
    requires OrdersDrawn(draws, p, g.feasible, orders)
    ensures Searched(sp, g, z, e, draws, p, s, cost, orders, s', cost')
  {
  }

  /** A leg put together from its searches. */
  lemma IsLeg(sp: Space, g: Goal, draws: nat -> Draw, leg: Leg, midK: nat)
    requires Searched(sp, g, leg.fee.z, 0.1, draws, leg.from, leg.start, leg.fee.cost, leg.rough, leg.mid, leg.midCost)
    requires midK == Centers(leg.mid)
    requires AboutRight(g.kmin, g.kmax, midK) ==>
               Searched(sp, g, leg.fee.z, 0.001, draws, StartOf(leg.from, |g.feasible|, |leg.rough|), leg.mid,
                        leg.midCost, leg.fine, leg.end, leg.endCost)
    requires !AboutRight(g.kmin, g.kmax, midK) ==>
               leg.fine == [] && leg.end == leg.mid && leg.endCost == leg.midCost
    ensures LegOk(sp, g, draws, leg)
    ensures LegEnd(g, leg) == StartOf(StartOf(leg.from, |g.feasible|, |leg.rough|), |g.feasible|, |leg.fine|)
  {
    hide Searched, AboutRight;
  }

  // ---- The search leaves no choice ---------------------------------------------------------------

  lemma {:induction false} OrdersAgree(draws: nat -> Draw, p: nat, feasible: seq<nat>, a: seq<seq<nat>>,
          b: seq<seq<nat>>, t: nat)
    requires OrdersDrawn(draws, p, feasible, a) && OrdersDrawn(draws, p, feasible, b) && t < |a| && t < |b|
    ensures a[t] == b[t]
  {
    hide Shuffled;
    if t > 0 { OrdersAgree(draws, p, feasible, a, b, t - 1); }
    assert OrderDrawn(draws, p, feasible, a, t) && OrderDrawn(draws, p, feasible, b, t);
  }

  lemma {:induction false} CostsAgree(sp: Space, s: Solution, z: real, cost: real, a: seq<seq<nat>>, b: seq<seq<nat>>,
          iter: nat, n: nat)
    requires Fits(sp, s) && AllCandidates(sp, a) && AllCandidates(sp, b) && n <= |a| && n <= |b| && a[..n] == b[..n]
    ensures CostAfter(sp, s, z, cost, a, iter, n) == CostAfter(sp, s, z, cost, b, iter, n)
    ensures n > 0 ==> RoundGain(sp, s, z, a, iter, n - 1) == RoundGain(sp, s, z, b, iter, n - 1)
  {
    hide Fits, Candidates, Gained, AfterRounds;
    if n > 0 {
      assert a[..n - 1] == a[..n][..n - 1] == b[..n - 1] && a[n - 1] == a[..n][n - 1] == b[n - 1];
      CostsAgree(sp, s, z, cost, a, b, iter, n - 1);
    }
  }

  /** What b has done in its round t it has done for a, if they agree up to there. */
  lemma WentOnAlike(sp: Space, s: Solution, z: real, cost: real, a: seq<seq<nat>>, b: seq<seq<nat>>, iter: nat,
          e: real, t: nat)
    requires Fits(sp, s) && AllCandidates(sp, a) && AllCandidates(sp, b) && t < |a| && t < |b|
    requires forall u :: 0 <= u <= t ==> a[u] == b[u]
    ensures WentOn(sp, s, z, cost, a, iter, e, t) <==> WentOn(sp, s, z, cost, b, iter, e, t)
  {
    hide Fits, Candidates, AllCandidates, RoundGain, CostAfter;
    assert a[..t + 1] == b[..t + 1];
    CostsAgree(sp, s, z, cost, a, b, iter, t + 1);
  }

  lemma NotLonger(sp: Space, g: Goal, z: real, e: real, draws: nat -> Draw, p: nat, s: Solution, cost: real,
          a: seq<seq<nat>>, sa: Solution, ca: real, b: seq<seq<nat>>, sb: Solution, cb: real)
    requires Searched(sp, g, z, e, draws, p, s, cost, a, sa, ca)
    requires Searched(sp, g, z, e, draws, p, s, cost, b, sb, cb)
    ensures |a| >= |b| && forall t :: 0 <= t < |b| ==> a[t] == b[t]
  {
    RunningEnd(sp, s, z, cost, a, g.iter, e, g.feasible, sa, ca);
    RunningEnd(sp, s, z, cost, b, g.iter, e, g.feasible, sb, cb);
    var last := |a| - 1;
    assert AllWentOn(sp, s, z, cost, b, g.iter, e, |b| - 1);
    assert 0 <= last < |b| - 1 ==> WentOn(sp, s, z, cost, b, g.iter, e, last);
    assert OrdersDrawn(draws, p, g.feasible, a) && OrdersDrawn(draws, p, g.feasible, b);
    hide *;
    forall t | 0 <= t < |a| && t < |b| ensures a[t] == b[t] { OrdersAgree(draws, p, g.feasible, a, b, t); }
    if 0 <= last < |b| { WentOnAlike(sp, s, z, cost, a, b, g.iter, e, last); }
  }

  /** A search is decided by where it starts. */
  lemma SearchUnique(sp: Space, g: Goal, z: real, e: real, draws: nat -> Draw, p: nat, s: Solution, cost: real,
          a: seq<seq<nat>>, sa: Solution, ca: real, b: seq<seq<nat>>, sb: Solution, cb: real)
    requires Searched(sp, g, z, e, draws, p, s, cost, a, sa, ca)
    requires Searched(sp, g, z, e, draws, p, s, cost, b, sb, cb)
    ensures a == b && sa == sb && ca == cb
  {
    NotLonger(sp, g, z, e, draws, p, s, cost, a, sa, ca, b, sb, cb);
    NotLonger(sp, g, z, e, draws, p, s, cost, b, sb, cb, a, sa, ca);
    RunningEnd(sp, s, z, cost, a, g.iter, e, g.feasible, sa, ca);
    RunningEnd(sp, s, z, cost, b, g.iter, e, g.feasible, sb, cb);
    hide *;
    assert a == b;
  }

  lemma LegUnique(sp: Space, g: Goal, draws: nat -> Draw, a: Leg, b: Leg)
    requires LegOk(sp, g, draws, a) && LegOk(sp, g, draws, b)
    requires a.fee == b.fee && a.start == b.start && a.from == b.from
    ensures a == b
  {
    var z := a.fee.z;
    hide Searched, AboutRight;
    SearchUnique(sp, g, z, 0.1, draws, a.from, a.start, a.fee.cost, a.rough, a.mid, a.midCost,
                 b.rough, b.mid, b.midCost);
    if AboutRight(g.kmin, g.kmax, Centers(a.mid)) {
      SearchUnique(sp, g, z, 0.001, draws, Halfway(g, a), a.mid, a.midCost, a.fine, a.end, a.endCost,
                   b.fine, b.end, b.endCost);
    }
  }

  /** The whole search for the fee is decided by the first solution and the draws. */
  lemma {:induction false} LegsAgree(sp: Space, g: Goal, draws: nat -> Draw, fee: Fee, s: Solution, p: nat,
          a: seq<Leg>, b: seq<Leg>, i: nat)
    requires Legs(sp, g, draws, fee, s, p, a) && Legs(sp, g, draws, fee, s, p, b) && i < |a| && i < |b|
    ensures a[i] == b[i]
  {
    hide LegOk, NextFee, Good, LegEnd;
    if i > 0 {
      LegsAgree(sp, g, draws, fee, s, p, a, b, i - 1);
      assert Follows(g, a[i - 1], a[i]) && Follows(g, b[i - 1], b[i]);
    }
    LegUnique(sp, g, draws, a[i], b[i]);
  }
}
