/** What it means to open a candidate and close a set of centers: the sums behind pgain, over reals. */
module ClusterGain {
  /** The clustering as pgain sees it: each point's cost and assignment, and its cost if assigned to x. */
  datatype View = View(cost: seq<real>, assign: seq<nat>, xCost: seq<real>)

  ghost predicate ViewOk(v: View) {
    |v.cost| == |v.assign| == |v.xCost| && forall i :: 0 <= i < |v.assign| ==> v.assign[i] < |v.cost|
  }

  /** Does point i save by switching to x on its own? */
  predicate Switches(v: View, i: nat)
    requires i < |v.cost| && i < |v.xCost|
  {
    v.xCost[i] < v.cost[i]
  }

  /** What the switching points among [lo, hi) change. */
  function SwitchSum(v: View, lo: nat, hi: nat): real
    requires ViewOk(v) && hi <= |v.cost|
    decreases hi
  {
    if hi <= lo then 0.0
    else SwitchSum(v, lo, hi - 1) + (if Switches(v, hi - 1) then v.xCost[hi - 1] - v.cost[hi - 1] else 0.0)
  }

  /** What is saved, without the fee, if the other members of c among [lo, hi) go to x. */
  function SaveSum(v: View, c: nat, lo: nat, hi: nat): real
    requires ViewOk(v) && hi <= |v.cost|
    decreases hi
  {
    if hi <= lo then 0.0
    else SaveSum(v, c, lo, hi - 1)
         + (if !Switches(v, hi - 1) && v.assign[hi - 1] == c then v.cost[hi - 1] - v.xCost[hi - 1] else 0.0)
  }

  lemma {:induction false} SumsJoin(v: View, c: nat, lo: nat, mid: nat, hi: nat)
    requires ViewOk(v) && lo <= mid <= hi <= |v.cost|
    ensures SwitchSum(v, lo, hi) == SwitchSum(v, lo, mid) + SwitchSum(v, mid, hi)
    ensures SaveSum(v, c, lo, hi) == SaveSum(v, c, lo, mid) + SaveSum(v, c, mid, hi)
  {
    if mid < hi { SumsJoin(v, c, lo, mid, hi - 1); }
  }

  ghost function CostSum(cost: seq<real>, n: nat): real
    requires n <= |cost|
  {
    if n == 0 then 0.0 else CostSum(cost, n - 1) + cost[n - 1]
  }

  /** The fee for k open centers. */
  ghost function Fees(z: real, k: nat): real {
    if k == 0 then 0.0 else Fees(z, k - 1) + z
  }

  lemma {:induction false} FeesIs(z: real, k: nat)
    ensures Fees(z, k) == z * (k as real)
  {
    if k > 0 {
      FeesIs(z, k - 1);
      FeeStep(z, (k - 1) as real);
      assert k as real == (k - 1) as real + 1.0;
    }
  }

  lemma FeeStep(z: real, r: real)
    ensures z * (r + 1.0) == z * r + z
  {
  }

  /** A point's cost once x is open and the centers in closed are shut. */
  ghost function NewCost(v: View, closed: set<nat>, i: nat): real
    requires ViewOk(v) && i < |v.cost|
  {
    if Switches(v, i) || v.assign[i] in closed then v.xCost[i] else v.cost[i]
  }

  ghost function NewSum(v: View, closed: set<nat>, n: nat): real
    requires ViewOk(v) && n <= |v.cost|
  {
    if n == 0 then 0.0 else NewSum(v, closed, n - 1) + NewCost(v, closed, n - 1)
  }

  /** The savings of all closed centers below m, counting points below n. */
  ghost function ClosedSave(v: View, closed: set<nat>, m: nat, n: nat): real
    requires ViewOk(v) && n <= |v.cost|
  {
    if m == 0 then 0.0 else ClosedSave(v, closed, m - 1, n) + (if m - 1 in closed then SaveSum(v, m - 1, 0, n) else 0.0)
  }

  lemma {:induction false} ClosedSaveNone(v: View, closed: set<nat>, m: nat)
    requires ViewOk(v)
    ensures ClosedSave(v, closed, m, 0) == 0.0
  {
    if m > 0 { ClosedSaveNone(v, closed, m - 1); }
  }

  /** One more point counts for the one center it is assigned to. */
  lemma {:induction false} ClosedSaveStep(v: View, closed: set<nat>, m: nat, n: nat)
    requires ViewOk(v) && 0 < n <= |v.cost|
    ensures ClosedSave(v, closed, m, n) == ClosedSave(v, closed, m, n - 1)
            + (if !Switches(v, n - 1) && v.assign[n - 1] in closed && v.assign[n - 1] < m
               then v.cost[n - 1] - v.xCost[n - 1] else 0.0)
  {
    if m > 0 { ClosedSaveStep(v, closed, m - 1, n); }
  }

  /** The new costs are the old ones, changed by the switching points and the closed centers. */
  lemma {:induction false} NewSumIs(v: View, closed: set<nat>, n: nat)
    requires ViewOk(v) && n <= |v.cost|
    ensures NewSum(v, closed, n) == CostSum(v.cost, n) + SwitchSum(v, 0, n) - ClosedSave(v, closed, |v.cost|, n)
  {
    if n == 0 {
      ClosedSaveNone(v, closed, |v.cost|);
    } else {
      NewSumIs(v, closed, n - 1);
      ClosedSaveStep(v, closed, |v.cost|, n);
    }
  }

  // ---- Lower fields ------------------------------------------------------------------------------

  /** What closing center c saves: its fee and, negatively, what its members lose. */
  ghost function Lower(v: View, z: real, c: nat): real
    requires ViewOk(v)
  {
    SaveSum(v, c, 0, |v.cost|) + z
  }

  ghost function LowerSum(v: View, z: real, closed: set<nat>, m: nat): real
    requires ViewOk(v)
  {
    if m == 0 then 0.0 else LowerSum(v, z, closed, m - 1) + (if m - 1 in closed then Lower(v, z, m - 1) else 0.0)
  }

  ghost function CountIn(closed: set<nat>, m: nat): nat {
    if m == 0 then 0 else CountIn(closed, m - 1) + (if m - 1 in closed then 1 else 0)
  }

  ghost predicate Within(s: set<nat>, n: nat) {
    forall c :: c in s ==> c < n
  }

  lemma {:induction false} CountIsSize(closed: set<nat>, m: nat)
    ensures CountIn(closed, m) == |set c | c in closed && c < m|
  {
    var s := set c | c in closed && c < m;
    if m == 0 {
      assert s == {};
    } else {
      CountIsSize(closed, m - 1);
      var t := set c | c in closed && c < m - 1;
      assert s == t + (if m - 1 in closed then {m - 1} else {});
    }
  }

  lemma CountAll(closed: set<nat>, n: nat)
    requires Within(closed, n)
    ensures CountIn(closed, n) == |closed|
  {
    CountIsSize(closed, n);
    assert closed == set c | c in closed && c < n;
  }

  lemma {:induction false} LowerSumIs(v: View, z: real, closed: set<nat>, m: nat)
    requires ViewOk(v)
    ensures LowerSum(v, z, closed, m) == ClosedSave(v, closed, m, |v.cost|) + Fees(z, CountIn(closed, m))
  {
    if m > 0 { LowerSumIs(v, z, closed, m - 1); }
  }

  // ---- The choice --------------------------------------------------------------------------------

  /** The centers whose lower field is positive. */
  ghost function Best(v: View, z: real, centers: set<nat>): (best: set<nat>)
    requires ViewOk(v)
    ensures best <= centers
  {
    set c | c in centers && Lower(v, z, c) > 0.0
  }

  lemma {:induction false} BestIsLargest(v: View, z: real, centers: set<nat>, closed: set<nat>, m: nat)
    requires ViewOk(v) && closed <= centers
    ensures LowerSum(v, z, closed, m) <= LowerSum(v, z, Best(v, z, centers), m)
  {
    if m > 0 { BestIsLargest(v, z, centers, closed, m - 1); }
  }

  /** The open centers afterwards. */
  ghost function After(centers: set<nat>, closed: set<nat>, x: nat): set<nat> {
    centers - closed + {x}
  }

  /** The total cost of the solution with x open and the centers in closed shut. */
  ghost function Potential(v: View, z: real, centers: set<nat>, closed: set<nat>, x: nat): real
    requires ViewOk(v)
  {
    NewSum(v, closed, |v.cost|) + Fees(z, |After(centers, closed, x)|)
  }

  /** The cost pgain computes for opening x: negative if it pays. */
  ghost function OpeningCost(v: View, z: real, centers: set<nat>): real
    requires ViewOk(v)
  {
    z + SwitchSum(v, 0, |v.cost|) - LowerSum(v, z, Best(v, z, centers), |v.cost|)
  }

  lemma FeesOne(z: real, k: nat)
    ensures Fees(z, k + 1) == Fees(z, k) + z
  {
  }

  lemma {:induction false} FeesAdd(z: real, j: nat, k: nat)
    ensures Fees(z, j + k) == Fees(z, j) + Fees(z, k)
  {
    if k > 0 { FeesAdd(z, j, k - 1); }
  }

  /** x is not a center, or is one whose members are at no distance from it and whose fee is not negative. */
  ghost predicate CandidateOk(v: View, z: real, centers: set<nat>, x: nat)
    requires ViewOk(v)
  {
    && Within(centers, |v.cost|) && z >= 0.0
    && (x in centers ==> forall i :: 0 <= i < |v.cost| && v.assign[i] == x ==> v.xCost[i] == v.cost[i])
  }

  lemma {:induction false} OwnMembersSaveNothing(v: View, x: nat, n: nat)
    requires ViewOk(v) && n <= |v.cost|
    requires forall i :: 0 <= i < |v.cost| && v.assign[i] == x ==> v.xCost[i] == v.cost[i]
    ensures SaveSum(v, x, 0, n) == 0.0
  {
    if n > 0 { OwnMembersSaveNothing(v, x, n - 1); }
  }

  lemma PotentialDef(v: View, z: real, centers: set<nat>, closed: set<nat>, x: nat)
    requires ViewOk(v)
    ensures Potential(v, z, centers, closed, x) == NewSum(v, closed, |v.cost|) + Fees(z, |After(centers, closed, x)|)
  {
  }

  lemma ClosedWithin(centers: set<nat>, closed: set<nat>, n: nat)
    requires Within(centers, n) && closed <= centers
    ensures Within(closed, n)
  {
  }

  lemma AfterSize(centers: set<nat>, closed: set<nat>, x: nat)
    requires closed <= centers && (x in closed || x !in centers)
    ensures |centers - closed| + |closed| == |centers| && |After(centers, closed, x)| == |centers - closed| + 1
  {
    assert |centers - closed| == |centers| - |closed|;
    assert x !in centers - closed;
  }

  lemma AfterFees(z: real, centers: set<nat>, closed: set<nat>, x: nat)
    requires closed <= centers && (x in closed || x !in centers)
    ensures Fees(z, |After(centers, closed, x)|) == Fees(z, |centers|) + z - Fees(z, |closed|)
  {
    hide Fees;
    AfterSize(centers, closed, x);
    var rest := |centers - closed|;
    FeesAdd(z, rest, |closed|);
    FeesOne(z, rest);
  }

  /** If x is closed or was no center, the cost of a choice is the old cost, the price of opening x and the
      savings of the closed centers. */
  lemma PotentialIs(v: View, z: real, centers: set<nat>, closed: set<nat>, x: nat)
    requires ViewOk(v) && Within(centers, |v.cost|) && closed <= centers && (x in closed || x !in centers)
    ensures Potential(v, z, centers, closed, x)
         == CostSum(v.cost, |v.cost|) + Fees(z, |centers|) + z
             + SwitchSum(v, 0, |v.cost|) - LowerSum(v, z, closed, |v.cost|)
  {
    ClosedWithin(centers, closed, |v.cost|);
    hide *;
    var n := |v.cost|;
    PotentialDef(v, z, centers, closed, x);
    NewSumIs(v, closed, n);
    LowerSumIs(v, z, closed, n);
    CountAll(closed, n);
    AfterFees(z, centers, closed, x);
  }

  lemma {:induction false} SameNewSum(v: View, closed: set<nat>, x: nat, n: nat)
    requires ViewOk(v) && n <= |v.cost|
    requires forall i :: 0 <= i < |v.cost| && v.assign[i] == x ==> v.xCost[i] == v.cost[i]
    ensures NewSum(v, closed, n) == NewSum(v, closed + {x}, n)
  {
    if n > 0 { SameNewSum(v, closed, x, n - 1); }
  }

  /** Shutting x and opening it again changes nothing. */
  lemma SameWithX(v: View, z: real, centers: set<nat>, closed: set<nat>, x: nat)
    requires ViewOk(v) && CandidateOk(v, z, centers, x) && x in centers && closed <= centers
    ensures Potential(v, z, centers, closed, x) == Potential(v, z, centers, closed + {x}, x)
  {
    SameNewSum(v, closed, x, |v.cost|);
    assert After(centers, closed, x) == After(centers, closed + {x}, x);
  }


  lemma {:induction false} ZeroLower(v: View, z: real, closed: set<nat>, x: nat, m: nat)
    requires ViewOk(v) && Lower(v, z, x) == 0.0
    ensures LowerSum(v, z, closed + {x}, m) == LowerSum(v, z, closed, m)
  {
    if m > 0 { ZeroLower(v, z, closed, x, m - 1); }
  }

  /** The accounting: the potential of pgain's choice is the old potential plus the opening cost. */
  lemma GainIsExact(v: View, z: real, centers: set<nat>, x: nat)
    requires ViewOk(v) && CandidateOk(v, z, centers, x)
    ensures Potential(v, z, centers, Best(v, z, centers), x)
         == CostSum(v.cost, |v.cost|) + Fees(z, |centers|) + OpeningCost(v, z, centers)
  {
    var best := Best(v, z, centers);
    if x !in centers {
      PotentialIs(v, z, centers, best, x);
    } else {
      OwnMembersSaveNothing(v, x, |v.cost|);
      assert Lower(v, z, x) == z;
      if z > 0.0 {
        PotentialIs(v, z, centers, best, x);
      } else {
        SameWithX(v, z, centers, best, x);
        PotentialIs(v, z, centers, best + {x}, x);
        ZeroLower(v, z, best, x, |v.cost|);
      }
    }
  }

  /** The centers that pgain closes are the best to close: no other set makes opening x cheaper. */
  lemma BestIsOptimal(v: View, z: real, centers: set<nat>, x: nat, closed: set<nat>)
    requires ViewOk(v) && CandidateOk(v, z, centers, x) && closed <= centers
    ensures Potential(v, z, centers, Best(v, z, centers), x) <= Potential(v, z, centers, closed, x)
  {
    GainIsExact(v, z, centers, x);
    var c := if x in centers then closed + {x} else closed;
    if x in centers { SameWithX(v, z, centers, closed, x); }
    PotentialIs(v, z, centers, c, x);
    BestIsLargest(v, z, centers, c, |v.cost|);
  }
}
