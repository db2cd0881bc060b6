/** canneal's annealing loop: pairs of different elements, accepted moves, and what the deltas add up to. */
module Annealer {
  import opened Netlist

  const NO_MATCHING_ELEMENT := -1

  /** An accepted move and the delta it was accepted for. */
  datatype Move = Move(a: nat, b: nat, delta: int)

  /** q is the first of the requests from p on that does not return e. */
  ghost predicate FirstOther(elements: nat -> nat, p: nat, e: int, q: nat) {
    p <= q && elements(q) != e && forall k :: p <= k < q ==> elements(k) == e
  }

  ghost predicate OtherComes(elements: nat -> nat, p: nat, e: int) {
    exists q: nat :: p <= q && elements(q) != e
  }

  /** No element comes up forever; the loop that waits for another one depends on it. */
  ghost predicate Fair(elements: nat -> nat) {
    forall p: nat, e: int :: OtherComes(elements, p, e)
  }

  /** The random generator: what its k-th request returns, as an element or as a chance. */
  class Rng {
    const elements: nat -> nat
    const chances: nat -> real
    var pos: nat

    constructor (elements: nat -> nat, chances: nat -> real)
      ensures this.elements == elements && this.chances == chances && pos == 0
    {
      this.elements, this.chances, pos := elements, chances, 0;
    }

    /** The elements are those of a chip of size n. */
    ghost predicate Draws(n: nat) {
      Fair(elements) && forall k: nat :: elements(k) < n
    }

    /** Draw until an element other than the one given comes up. */
    method GetRandomElement(n: nat, differentFrom: int) returns (id: nat)
      requires Draws(n)
      modifies this
      ensures id < n && id != differentFrom && pos > old(pos)
      ensures FirstOther(elements, old(pos), differentFrom, pos - 1) && id == elements(pos - 1)
    {
      assert OtherComes(elements, pos, differentFrom);
      ghost var last: nat :| pos <= last && elements(last) != differentFrom;
      id := elements(pos);
      pos := pos + 1;
      while id == differentFrom
        invariant old(pos) < pos <= last + 1 && id == elements(pos - 1)
        invariant forall k :: old(pos) <= k < pos - 1 ==> elements(k) == differentFrom
        decreases last + 1 - pos
      {
        id := elements(pos);
        pos := pos + 1;
      }
    }

    method Drand() returns (chance: real)
      modifies this
      ensures chance == chances(old(pos)) && pos == old(pos) + 1
    {
      chance := chances(pos);
      pos := pos + 1;
    }
  }

  // ---- What the accepted moves do ----------------------------------------------------------------

  ghost predicate MovesOk(moves: seq<Move>, n: nat) {
    forall k :: 0 <= k < |moves| ==> moves[k].a < n && moves[k].b < n && moves[k].a != moves[k].b
  }

  /** The locations after the moves. */
  ghost function Placed(loc: seq<Loc>, moves: seq<Move>): (s: seq<Loc>)
    requires MovesOk(moves, |loc|)
    ensures |s| == |loc|
  {
    if moves == [] then loc
    else
      var m := moves[|moves| - 1];
      Exchanged(Placed(loc, moves[..|moves| - 1]), m.a, m.b)
  }

  ghost function Booked(moves: seq<Move>): int {
    if moves == [] then 0 else Booked(moves[..|moves| - 1]) + moves[|moves| - 1].delta
  }

  /**
   * What the deltas leave out: for each move, the distance for every net between the two, less that for their
   * self-nets.
   */
  ghost function Missed(nets: seq<Net>, loc: seq<Loc>, moves: seq<Move>): int
    requires MovesOk(moves, |loc|)
  {
    if moves == [] then 0
    else
      var front, m := moves[..|moves| - 1], moves[|moves| - 1];
      var d := Dist(Placed(loc, front)[m.a], Placed(loc, front)[m.b]);
      Missed(nets, loc, front) + Times(Joining(nets, m.a, m.b), d) - Times(SelfNets(nets, m.a) + SelfNets(nets, m.b), d)
  }

  /** Each move was booked with the delta computed at the time. */
  ghost predicate DeltasOk(nets: seq<Net>, loc: seq<Loc>, moves: seq<Move>)
    requires NetsOk(nets, |loc|) && MovesOk(moves, |loc|)
  {
    forall k :: 0 <= k < |moves| ==> DeltaAt(nets, loc, moves, k)
  }

  ghost predicate DeltaAt(nets: seq<Net>, loc: seq<Loc>, moves: seq<Move>, k: nat)
    requires NetsOk(nets, |loc|) && MovesOk(moves, |loc|) && k < |moves|
  {
    && MovesOk(moves[..k], |loc|)
    && moves[k].delta == Delta(nets, Placed(loc, moves[..k]), moves[k].a, moves[k].b)
  }

  lemma AddMove(loc: seq<Loc>, moves: seq<Move>, m: Move)
    requires MovesOk(moves, |loc|) && m.a < |loc| && m.b < |loc| && m.a != m.b
    ensures MovesOk(moves + [m], |loc|)
    ensures Placed(loc, moves + [m]) == Exchanged(Placed(loc, moves), m.a, m.b)
  {
    assert (moves + [m])[..|moves|] == moves;
  }

  lemma AddDelta(nets: seq<Net>, loc: seq<Loc>, moves: seq<Move>, m: Move)
    requires NetsOk(nets, |loc|) && MovesOk(moves, |loc|) && DeltasOk(nets, loc, moves)
    requires m.a < |loc| && m.b < |loc| && m.a != m.b && m.delta == Delta(nets, Placed(loc, moves), m.a, m.b)
    ensures MovesOk(moves + [m], |loc|) && DeltasOk(nets, loc, moves + [m])
  {
    hide Delta, Placed;
    var more := moves + [m];
    forall k | 0 <= k < |more| ensures DeltaAt(nets, loc, more, k) {
      assert more[..k] == moves[..k];
      assert moves[..|moves|] == moves;
      if k < |moves| { assert DeltaAt(nets, loc, moves, k); }
    }
  }

  lemma FrontOk(nets: seq<Net>, loc: seq<Loc>, moves: seq<Move>)
    requires NetsOk(nets, |loc|) && MovesOk(moves, |loc|) && DeltasOk(nets, loc, moves) && moves != []
    ensures var front, m := moves[..|moves| - 1], moves[|moves| - 1];
            && MovesOk(front, |loc|) && DeltasOk(nets, loc, front)
            && m.a < |loc| && m.b < |loc| && m.a != m.b
            && m.delta == Delta(nets, Placed(loc, front), m.a, m.b)
  {
    hide Delta, Placed;
    var n := |moves| - 1;
    var front := moves[..n];
    forall k | 0 <= k < n ensures DeltaAt(nets, loc, front, k) {
      assert front[..k] == moves[..k];
      assert DeltaAt(nets, loc, moves, k);
    }
    assert DeltaAt(nets, loc, moves, n);
  }

  /**
   * Over a whole run the wire length changes by the deltas of the accepted moves, plus twice what they
   * leave out for nets between the two elements of a move.
   */
  lemma {:induction false} RunCost(nets: seq<Net>, loc: seq<Loc>, moves: seq<Move>)
    requires NetsOk(nets, |loc|) && MovesOk(moves, |loc|) && DeltasOk(nets, loc, moves)
    ensures WireLength(nets, Placed(loc, moves)) == WireLength(nets, loc) + Booked(moves) + 2 * Missed(nets, loc, moves)
  {
    hide *;
    if moves == [] {
      NoMoves(nets, loc);
    } else {
      FrontOk(nets, loc, moves);
      var front, m := moves[..|moves| - 1], moves[|moves| - 1];
      RunCost(nets, loc, front);
      DeltaError(nets, Placed(loc, front), m.a, m.b);
      LastMove(nets, loc, moves);
    }
  }

  lemma NoMoves(nets: seq<Net>, loc: seq<Loc>)
    requires NetsOk(nets, |loc|)
    ensures MovesOk([], |loc|) && Placed(loc, []) == loc && Booked([]) == 0 && Missed(nets, loc, []) == 0
    ensures DeltasOk(nets, loc, [])
  {
  }

  lemma LastMove(nets: seq<Net>, loc: seq<Loc>, moves: seq<Move>)
    requires MovesOk(moves, |loc|) && moves != []
    ensures var front, m := moves[..|moves| - 1], moves[|moves| - 1];
            && MovesOk(front, |loc|) && m.a < |loc| && m.b < |loc|
            && Placed(loc, moves) == Exchanged(Placed(loc, front), m.a, m.b)
            && Booked(moves) == Booked(front) + m.delta
            && var d := Dist(Placed(loc, front)[m.a], Placed(loc, front)[m.b]);
               Missed(nets, loc, moves) == Missed(nets, loc, front) + Times(Joining(nets, m.a, m.b), d)
                                           - Times(SelfNets(nets, m.a) + SelfNets(nets, m.b), d)
  {
    hide Dist, Times, Joining, SelfNets, Exchanged;
  }

  /** No element's location is lost or given twice. */
  lemma {:induction false} PlacedKeeps(loc: seq<Loc>, moves: seq<Move>)
    requires MovesOk(moves, |loc|)
    ensures multiset(Placed(loc, moves)) == multiset(loc)
  {
    if moves != [] {
      var front, m := moves[..|moves| - 1], moves[|moves| - 1];
      PlacedKeeps(loc, front);
      var s := Placed(loc, front);
      assert Exchanged(s, m.a, m.b) == s[m.a := s[m.b]][m.b := s[m.a]];
    }
  }

  lemma {:induction false} PlacedConcat(loc: seq<Loc>, first: seq<Move>, then0: seq<Move>)
    requires MovesOk(first, |loc|) && MovesOk(then0, |loc|)
    ensures MovesOk(first + then0, |loc|) && Placed(loc, first + then0) == Placed(Placed(loc, first), then0)
  {
    hide Exchanged;
    if then0 == [] {
      assert first + then0 == first;
    } else {
      var n := |then0| - 1;
      PlacedConcat(loc, first, then0[..n]);
      assert first + then0 == (first + then0[..n]) + [then0[n]];
      AddMove(loc, first + then0[..n], then0[n]);
    }
  }

  lemma DeltasConcat(nets: seq<Net>, loc: seq<Loc>, first: seq<Move>, then0: seq<Move>)
    requires NetsOk(nets, |loc|) && MovesOk(first, |loc|) && MovesOk(then0, |loc|)
    requires DeltasOk(nets, loc, first) && DeltasOk(nets, Placed(loc, first), then0)
    ensures MovesOk(first + then0, |loc|) && DeltasOk(nets, loc, first + then0)
  {
    hide Delta, DeltaAt, Placed, NetsOk;
    var all := first + then0;
    forall k | 0 <= k < |all| ensures DeltaAt(nets, loc, all, k) {
      if k < |first| {
        DeltaBefore(nets, loc, first, then0, k);
      } else {
        DeltaAfter(nets, loc, first, then0, k - |first|);
      }
    }
  }

  lemma DeltaBefore(nets: seq<Net>, loc: seq<Loc>, first: seq<Move>, then0: seq<Move>, k: nat)
    requires NetsOk(nets, |loc|) && MovesOk(first, |loc|) && MovesOk(first + then0, |loc|)
    requires k < |first| && DeltaAt(nets, loc, first, k)
    ensures DeltaAt(nets, loc, first + then0, k)
  {
    hide Delta, Placed, NetsOk;
    assert (first + then0)[..k] == first[..k];
  }

  lemma DeltaAfter(nets: seq<Net>, loc: seq<Loc>, first: seq<Move>, then0: seq<Move>, j: nat)
    requires NetsOk(nets, |loc|) && MovesOk(first, |loc|) && MovesOk(then0, |loc|)
    requires j < |then0| && DeltaAt(nets, Placed(loc, first), then0, j)
    ensures MovesOk(first + then0, |loc|) && DeltaAt(nets, loc, first + then0, |first| + j)
  {
    hide Delta, Placed, NetsOk;
    assert (first + then0)[..|first| + j] == first + then0[..j];
    PlacedConcat(loc, first, then0[..j]);
  }

  // ---- The loop at one temperature ---------------------------------------------------------------

  /** One attempt: elements a and b, the delta, and at which request b came up. */
  datatype Attempt = Attempt(a: nat, b: nat, delta: int, at: nat)

  /** Only a delta that is not negative asks for a chance. */
  function After(m: Attempt): nat {
    m.at + (if m.delta < 0 then 1 else 2)
  }

  /** accept_move: what lowers the cost is taken, the rest if the Boltzmann factor beats the chance drawn. */
  predicate Accepted(m: Attempt, chances: nat -> real, boltzmann: (int, real) -> real, temp: real) {
    m.delta < 0 || boltzmann(m.delta, temp) > chances(m.at + 1)
  }

  ghost function Chosen(tried: seq<Attempt>, chances: nat -> real, boltzmann: (int, real) -> real,
          temp: real): seq<Move> {
    if tried == [] then []
    else
      var n := |tried| - 1;
      Chosen(tried[..n], chances, boltzmann, temp)
      + (if Accepted(tried[n], chances, boltzmann, temp) then [Move(tried[n].a, tried[n].b, tried[n].delta)] else [])
  }

  ghost function Gains(tried: seq<Attempt>): nat {
    if tried == [] then 0
    else Gains(tried[..|tried| - 1]) + (if tried[|tried| - 1].delta < 0 then 1 else 0)
  }

  ghost function LastOf(tried: seq<Attempt>, b0: nat): nat {
    if tried == [] then b0 else tried[|tried| - 1].b
  }

  ghost function PosAfter(tried: seq<Attempt>, p0: nat): nat {
    if tried == [] then p0 else After(tried[|tried| - 1])
  }

  /** Attempt k takes over the element of the one before and draws the next different one. */
  ghost predicate DrawnAt(elements: nat -> nat, tried: seq<Attempt>, p0: nat, b0: nat, k: nat)
    requires k < |tried|
  {
    && tried[k].a == LastOf(tried[..k], b0)
    && FirstOther(elements, PosAfter(tried[..k], p0), tried[k].a, tried[k].at)
    && tried[k].b == elements(tried[k].at)
  }

  ghost predicate Drawn(elements: nat -> nat, tried: seq<Attempt>, p0: nat, b0: nat) {
    forall k :: 0 <= k < |tried| ==> DrawnAt(elements, tried, p0, b0, k)
  }

  /** If no chance is below the Boltzmann factor, exactly the attempts that lower the cost are accepted. */
  lemma {:induction false} ColdDescends(tried: seq<Attempt>, chances: nat -> real, boltzmann: (int, real) -> real,
          temp: real)
    requires forall d: int, k: nat :: d >= 0 ==> boltzmann(d, temp) <= chances(k)
    ensures |Chosen(tried, chances, boltzmann, temp)| == Gains(tried)
    ensures forall m :: m in Chosen(tried, chances, boltzmann, temp) ==> m.delta < 0
  {
    if tried != [] { ColdDescends(tried[..|tried| - 1], chances, boltzmann, temp); }
  }

  /** If every chance is, all are. */
  lemma {:induction false} HotTakesAll(tried: seq<Attempt>, chances: nat -> real, boltzmann: (int, real) -> real,
          temp: real)
    requires forall d: int, k: nat :: d >= 0 ==> boltzmann(d, temp) > chances(k)
    ensures |Chosen(tried, chances, boltzmann, temp)| == |tried|
    ensures forall k :: 0 <= k < |tried| ==>
              Chosen(tried, chances, boltzmann, temp)[k] == Move(tried[k].a, tried[k].b, tried[k].delta)
  {
    if tried != [] {
      var n := |tried| - 1;
      HotTakesAll(tried[..n], chances, boltzmann, temp);
      assert forall k :: 0 <= k < n ==> tried[..n][k] == tried[k];
    }
  }

  lemma TryOne(tried: seq<Attempt>, m: Attempt, chances: nat -> real, boltzmann: (int, real) -> real, temp: real)
    ensures Chosen(tried + [m], chances, boltzmann, temp)
         == Chosen(tried, chances, boltzmann, temp)
            + (if Accepted(m, chances, boltzmann, temp) then [Move(m.a, m.b, m.delta)] else [])
    ensures Gains(tried + [m]) == Gains(tried) + (if m.delta < 0 then 1 else 0)
  {
    assert (tried + [m])[..|tried|] == tried;
  }

  lemma DrawOne(elements: nat -> nat, tried: seq<Attempt>, p0: nat, b0: nat, m: Attempt)
    requires Drawn(elements, tried, p0, b0) && m.a == LastOf(tried, b0)
    requires FirstOther(elements, PosAfter(tried, p0), m.a, m.at) && m.b == elements(m.at)
    ensures Drawn(elements, tried + [m], p0, b0)
  {
    hide FirstOther;
    var more := tried + [m];
    forall k | 0 <= k < |more| ensures DrawnAt(elements, more, p0, b0, k) {
      assert more[..k] == tried[..k];
      assert tried[..|tried|] == tried;
      if k < |tried| { assert DrawnAt(elements, tried, p0, b0, k); }
    }
  }

  /** Every attempt, accepted or not, was judged by the delta at the locations of the time. */
  ghost predicate Judged(nets: seq<Net>, loc: seq<Loc>, tried: seq<Attempt>, chances: nat -> real,
          boltzmann: (int, real) -> real, temp: real)
    requires NetsOk(nets, |loc|)
  {
    forall k :: 0 <= k < |tried| ==> JudgedAt(nets, loc, tried, chances, boltzmann, temp, k)
  }

  ghost predicate JudgedAt(nets: seq<Net>, loc: seq<Loc>, tried: seq<Attempt>, chances: nat -> real,
          boltzmann: (int, real) -> real, temp: real, k: nat)
    requires NetsOk(nets, |loc|) && k < |tried|
  {
    var before := Chosen(tried[..k], chances, boltzmann, temp);
    && MovesOk(before, |loc|) && tried[k].a < |loc| && tried[k].b < |loc|
    && tried[k].delta == Delta(nets, Placed(loc, before), tried[k].a, tried[k].b)
  }

  lemma JudgeOne(nets: seq<Net>, loc: seq<Loc>, tried: seq<Attempt>, chances: nat -> real,
                 boltzmann: (int, real) -> real, temp: real, m: Attempt)
    requires NetsOk(nets, |loc|) && Judged(nets, loc, tried, chances, boltzmann, temp)
    requires var before := Chosen(tried, chances, boltzmann, temp);
             MovesOk(before, |loc|) && m.a < |loc| && m.b < |loc|
             && m.delta == Delta(nets, Placed(loc, before), m.a, m.b)
    ensures Judged(nets, loc, tried + [m], chances, boltzmann, temp)
  {
    hide Delta, Placed, Chosen;
    var more := tried + [m];
    forall k | 0 <= k < |more| ensures JudgedAt(nets, loc, more, chances, boltzmann, temp, k) {
      assert more[..k] == tried[..k];
      assert tried[..|tried|] == tried;
      if k < |tried| { assert JudgedAt(nets, loc, tried, chances, boltzmann, temp, k); }
    }
  }

  lemma NoneJudged(nets: seq<Net>, loc: seq<Loc>, chances: nat -> real, boltzmann: (int, real) -> real, temp: real)
    requires NetsOk(nets, |loc|)
    ensures Judged(nets, loc, [], chances, boltzmann, temp)
  {
  }

  lemma TryNone(elements: nat -> nat, chances: nat -> real,
                boltzmann: (int, real) -> real, temp: real, p0: nat, b0: nat)
    ensures Chosen([], chances, boltzmann, temp) == [] && Gains([]) == 0 && Drawn(elements, [], p0, b0)
    ensures LastOf([], b0) == b0 && PosAfter([], p0) == p0
  {
  }

  /** The moves tried at one temperature. */
  method MovesAtTemperature(c: Circuit, rng: Rng, swaps: nat, temp: real, boltzmann: (int, real) -> real, b0: nat)
    returns (good: nat, bad: nat, b: nat, ghost tried: seq<Attempt>, ghost moves: seq<Move>)
    requires c.Valid() && rng.Draws(c.chipSize) && b0 < c.chipSize
    modifies c`loc, rng
    ensures c.Valid() && b < c.chipSize && |c.loc| == |old(c.loc)|
    ensures |tried| == swaps && Drawn(rng.elements, tried, old(rng.pos), b0)
    ensures b == LastOf(tried, b0) && rng.pos == PosAfter(tried, old(rng.pos))
    ensures moves == Chosen(tried, rng.chances, boltzmann, temp) && good == Gains(tried) && |moves| == good + bad
    ensures MovesOk(moves, |c.loc|) && c.loc == Placed(old(c.loc), moves)
    ensures NetsOk(c.nets, |c.loc|) && DeltasOk(c.nets, old(c.loc), moves)
    ensures Judged(c.nets, old(c.loc), tried, rng.chances, boltzmann, temp)
    ensures multiset(c.loc) == multiset(old(c.loc))
    ensures WireLength(c.nets, c.loc)
         == WireLength(c.nets, old(c.loc)) + Booked(moves) + 2 * Missed(c.nets, old(c.loc), moves)
  {
    hide *;
    CircuitFacts(c);
    NoneJudged(c.nets, c.loc, rng.chances, boltzmann, temp);
    good, bad, b, moves, tried := 0, 0, b0, [], [];
    TryNone(rng.elements, rng.chances, boltzmann, temp, rng.pos, b0);
    NoMoves(c.nets, c.loc);
    var i := 0;
    while i < swaps
      invariant 0 <= i <= swaps && c.Valid() && b < c.chipSize && |tried| == i
      invariant |c.loc| == |old(c.loc)| == c.chipSize && NetsOk(c.nets, |c.loc|) && |moves| == good + bad
      invariant Drawn(rng.elements, tried, old(rng.pos), b0)
      invariant Judged(c.nets, old(c.loc), tried, rng.chances, boltzmann, temp)
      invariant b == LastOf(tried, b0) && rng.pos == PosAfter(tried, old(rng.pos))
      invariant moves == Chosen(tried, rng.chances, boltzmann, temp) && good == Gains(tried)
      invariant MovesOk(moves, |c.loc|) && c.loc == Placed(old(c.loc), moves) && DeltasOk(c.nets, old(c.loc), moves)
    {
      var a := b;
      b := rng.GetRandomElement(c.chipSize, a);
      ghost var at := rng.pos - 1;
      var delta := c.DeltaRoutingCost(a, b);
      var accept := AcceptMove(delta, temp, boltzmann, rng);
      ghost var m := Attempt(a, b, delta, at);
      AfterIs(m);
      TryOne(tried, m, rng.chances, boltzmann, temp);
      DrawOne(rng.elements, tried, old(rng.pos), b0, m);
      LastIs(tried, m, b0, old(rng.pos));
      AcceptedIs(m, rng.chances, boltzmann, temp);
      JudgeOne(c.nets, old(c.loc), tried, rng.chances, boltzmann, temp, m);
      tried := tried + [m];
      if accept {
        if delta < 0 { good := good + 1; } else { bad := bad + 1; }
        AddDelta(c.nets, old(c.loc), moves, Move(a, b, delta));
        AddMove(old(c.loc), moves, Move(a, b, delta));
        c.SwapLocations(a, b);
        moves := moves + [Move(a, b, delta)];
        CircuitFacts(c);
      }
      i := i + 1;
    }
    RunCost(c.nets, old(c.loc), moves);
    PlacedKeeps(old(c.loc), moves);
  }

  method AcceptMove(delta: int, temp: real, boltzmann: (int, real) -> real, rng: Rng) returns (accept: bool)
    modifies rng
    ensures accept <==> delta < 0 || boltzmann(delta, temp) > rng.chances(old(rng.pos))
    ensures rng.pos == old(rng.pos) + (if delta < 0 then 0 else 1)
  {
    if delta < 0 {
      accept := true;
    } else {
      var chance := rng.Drand();
      accept := boltzmann(delta, temp) > chance;
    }
  }

  lemma AfterIs(m: Attempt)
    ensures After(m) == m.at + (if m.delta < 0 then 1 else 2)
  {
  }

  lemma AcceptedIs(m: Attempt, chances: nat -> real, boltzmann: (int, real) -> real, temp: real)
    ensures Accepted(m, chances, boltzmann, temp) <==> m.delta < 0 || boltzmann(m.delta, temp) > chances(m.at + 1)
  {
  }

  lemma LastIs(tried: seq<Attempt>, m: Attempt, b0: nat, p0: nat)
    ensures LastOf(tried + [m], b0) == m.b && PosAfter(tried + [m], p0) == After(m)
  {
  }

  lemma CircuitFacts(c: Circuit)
    requires c.Valid()
    ensures |c.loc| == c.chipSize && NetsOk(c.nets, |c.loc|)
  {
    NetsWider(c.nets, c.unused, |c.loc|);
  }

  // ---- The whole run -----------------------------------------------------------------------------

  /** The temperature of the k-th step. */
  function TempAt(startTemp: real, k: nat): real {
    if k == 0 then startTemp else TempAt(startTemp, k - 1) / 1.5
  }

  /** Every step is two thirds as hot as the one before. */
  lemma Cools(startTemp: real, k: nat)
    ensures TempAt(startTemp, 0) == startTemp && 3.0 * TempAt(startTemp, k + 1) == 2.0 * TempAt(startTemp, k)
  {
  }

  /** The accepted moves of all steps. */
  ghost function AllChosen(rounds: seq<seq<Attempt>>, chances: nat -> real, boltzmann: (int, real) -> real,
          startTemp: real): seq<Move> {
    if rounds == [] then []
    else
      var n := |rounds| - 1;
      AllChosen(rounds[..n], chances, boltzmann, startTemp)
      + Chosen(rounds[n], chances, boltzmann, TempAt(startTemp, n + 1))
  }

  lemma OneRound(rounds: seq<seq<Attempt>>, tried: seq<Attempt>, chances: nat -> real,
                 boltzmann: (int, real) -> real, startTemp: real)
    ensures AllChosen(rounds + [tried], chances, boltzmann, startTemp)
         == AllChosen(rounds, chances, boltzmann, startTemp)
            + Chosen(tried, chances, boltzmann, TempAt(startTemp, |rounds| + 1))
    ensures TempAt(startTemp, |rounds| + 1) == TempAt(startTemp, |rounds|) / 1.5
  {
    assert (rounds + [tried])[..|rounds|] == rounds;
  }

  lemma NoRound(chances: nat -> real, boltzmann: (int, real) -> real, startTemp: real)
    ensures AllChosen([], chances, boltzmann, startTemp) == [] && TempAt(startTemp, 0) == startTemp
  {
  }

  // ---- What the generator has to do with it ------------------------------------------------------

  /** Where the generator stands after the rounds. */
  ghost function EndPos(rounds: seq<seq<Attempt>>, p0: nat): nat {
    if rounds == [] then p0 else PosAfter(rounds[|rounds| - 1], EndPos(rounds[..|rounds| - 1], p0))
  }

  /** The element that the rounds end with. */
  ghost function EndLast(rounds: seq<seq<Attempt>>, b0: nat): nat {
    if rounds == [] then b0 else LastOf(rounds[|rounds| - 1], EndLast(rounds[..|rounds| - 1], b0))
  }

  /** Every round goes on with the generator and with the element where the one before has ended. */
  ghost predicate RoundsDrawn(elements: nat -> nat, rounds: seq<seq<Attempt>>, p0: nat, b0: nat) {
    forall t :: 0 <= t < |rounds| ==>
      Drawn(elements, rounds[t], EndPos(rounds[..t], p0), EndLast(rounds[..t], b0))
  }

  /** Round t is judged at the locations that the rounds before have left, at its own temperature. */
  ghost predicate RoundJudged(nets: seq<Net>, loc: seq<Loc>, rounds: seq<seq<Attempt>>, t: nat,
          chances: nat -> real, boltzmann: (int, real) -> real, startTemp: real)
    requires NetsOk(nets, |loc|) && t < |rounds|
  {
    var before := AllChosen(rounds[..t], chances, boltzmann, startTemp);
    MovesOk(before, |loc|)
    && Judged(nets, Placed(loc, before), rounds[t], chances, boltzmann, TempAt(startTemp, t + 1))
  }

  ghost predicate RoundsJudged(nets: seq<Net>, loc: seq<Loc>, rounds: seq<seq<Attempt>>,
          chances: nat -> real, boltzmann: (int, real) -> real, startTemp: real)
    requires NetsOk(nets, |loc|)
  {
    forall t :: 0 <= t < |rounds| ==> RoundJudged(nets, loc, rounds, t, chances, boltzmann, startTemp)
  }

  lemma NoRounds(elements: nat -> nat, nets: seq<Net>, loc: seq<Loc>, p0: nat, b0: nat,
          chances: nat -> real, boltzmann: (int, real) -> real, startTemp: real)
    requires NetsOk(nets, |loc|)
    ensures RoundsDrawn(elements, [], p0, b0) && EndPos([], p0) == p0 && EndLast([], b0) == b0
    ensures RoundsJudged(nets, loc, [], chances, boltzmann, startTemp)
  {
  }

  lemma NextDrawn(elements: nat -> nat, rounds: seq<seq<Attempt>>, tried: seq<Attempt>, p0: nat, b0: nat)
    requires RoundsDrawn(elements, rounds, p0, b0)
    requires Drawn(elements, tried, EndPos(rounds, p0), EndLast(rounds, b0))
    ensures RoundsDrawn(elements, rounds + [tried], p0, b0)
    ensures EndPos(rounds + [tried], p0) == PosAfter(tried, EndPos(rounds, p0))
    ensures EndLast(rounds + [tried], b0) == LastOf(tried, EndLast(rounds, b0))
  {
    hide Drawn, PosAfter, LastOf;
    var all := rounds + [tried];
    assert all[..|rounds|] == rounds;
    forall t | 0 <= t < |all| ensures Drawn(elements, all[t], EndPos(all[..t], p0), EndLast(all[..t], b0)) {
      if t < |rounds| { assert all[..t] == rounds[..t] && all[t] == rounds[t]; }
    }
  }

  lemma NextJudged(nets: seq<Net>, loc: seq<Loc>, rounds: seq<seq<Attempt>>, tried: seq<Attempt>,
          chances: nat -> real, boltzmann: (int, real) -> real, startTemp: real)
    requires NetsOk(nets, |loc|) && RoundsJudged(nets, loc, rounds, chances, boltzmann, startTemp)
    requires MovesOk(AllChosen(rounds, chances, boltzmann, startTemp), |loc|)
    requires Judged(nets, Placed(loc, AllChosen(rounds, chances, boltzmann, startTemp)), tried, chances, boltzmann,
                    TempAt(startTemp, |rounds| + 1))
    ensures RoundsJudged(nets, loc, rounds + [tried], chances, boltzmann, startTemp)
  {
    hide Judged, AllChosen, Placed, MovesOk, NetsOk, TempAt;
    var all := rounds + [tried];
    assert all[..|rounds|] == rounds;
    forall t | 0 <= t < |all| ensures RoundJudged(nets, loc, all, t, chances, boltzmann, startTemp) {
      if t < |rounds| {
        assert all[..t] == rounds[..t] && all[t] == rounds[t];
        assert RoundJudged(nets, loc, rounds, t, chances, boltzmann, startTemp);
      }
    }
  }

  /** Where any element will do, the next one drawn does. */
  lemma AnyElement(elements: nat -> nat, p: nat, q: nat)
    requires FirstOther(elements, p, NO_MATCHING_ELEMENT, q)
    ensures q == p
  {
    var e := elements(p);
  }

  lemma FirstOtherUnique(elements: nat -> nat, p: nat, e: int, q: nat, q': nat)
    requires FirstOther(elements, p, e, q) && FirstOther(elements, p, e, q')
    ensures q == q'
  {
  }

  lemma DrawnFront(elements: nat -> nat, tried: seq<Attempt>, p0: nat, b0: nat)
    requires Drawn(elements, tried, p0, b0) && tried != []
    ensures Drawn(elements, tried[..|tried| - 1], p0, b0) && DrawnAt(elements, tried, p0, b0, |tried| - 1)
  {
    var front := tried[..|tried| - 1];
    forall k | 0 <= k < |front| ensures DrawnAt(elements, front, p0, b0, k) {
      assert DrawnAt(elements, tried, p0, b0, k) && front[..k] == tried[..k];
    }
  }

  lemma JudgedFront(nets: seq<Net>, loc: seq<Loc>, tried: seq<Attempt>, chances: nat -> real,
          boltzmann: (int, real) -> real, temp: real)
    requires NetsOk(nets, |loc|) && Judged(nets, loc, tried, chances, boltzmann, temp) && tried != []
    ensures Judged(nets, loc, tried[..|tried| - 1], chances, boltzmann, temp)
    ensures JudgedAt(nets, loc, tried, chances, boltzmann, temp, |tried| - 1)
  {
    hide Delta, Placed, Chosen, MovesOk;
    var front := tried[..|tried| - 1];
    forall k | 0 <= k < |front| ensures JudgedAt(nets, loc, front, chances, boltzmann, temp, k) {
      assert JudgedAt(nets, loc, tried, chances, boltzmann, temp, k) && front[..k] == tried[..k];
    }
  }

  /** The generator and the locations decide every attempt of a round. */
  lemma {:induction false} RoundUnique(elements: nat -> nat, nets: seq<Net>, loc: seq<Loc>, tried: seq<Attempt>,
          tried': seq<Attempt>, p0: nat, b0: nat, chances: nat -> real, boltzmann: (int, real) -> real, temp: real)
    requires NetsOk(nets, |loc|) && |tried| == |tried'|
    requires Drawn(elements, tried, p0, b0) && Drawn(elements, tried', p0, b0)
    requires Judged(nets, loc, tried, chances, boltzmann, temp) && Judged(nets, loc, tried', chances, boltzmann, temp)
    ensures tried == tried'
  {
    hide Drawn, Judged, Chosen, Placed, Delta, MovesOk, FirstOther, NetsOk, LastOf, PosAfter;
    if tried != [] {
      var n := |tried| - 1;
      DrawnFront(elements, tried, p0, b0);
      DrawnFront(elements, tried', p0, b0);
      JudgedFront(nets, loc, tried, chances, boltzmann, temp);
      JudgedFront(nets, loc, tried', chances, boltzmann, temp);
      RoundUnique(elements, nets, loc, tried[..n], tried'[..n], p0, b0, chances, boltzmann, temp);
      FirstOtherUnique(elements, PosAfter(tried[..n], p0), tried[n].a, tried[n].at, tried'[n].at);
      assert tried == tried[..n] + [tried[n]] && tried' == tried'[..n] + [tried'[n]];
    }
  }

  /** A run is decided by the generator: no two runs from the same state try different moves. */
  lemma {:induction false} RunUnique(elements: nat -> nat, nets: seq<Net>, loc: seq<Loc>, rounds: seq<seq<Attempt>>,
          rounds': seq<seq<Attempt>>, p0: nat, b0: nat, chances: nat -> real, boltzmann: (int, real) -> real,
          startTemp: real)
    requires NetsOk(nets, |loc|) && |rounds| == |rounds'|
    requires forall t :: 0 <= t < |rounds| ==> |rounds[t]| == |rounds'[t]|
    requires RoundsDrawn(elements, rounds, p0, b0) && RoundsDrawn(elements, rounds', p0, b0)
    requires RoundsJudged(nets, loc, rounds, chances, boltzmann, startTemp)
    requires RoundsJudged(nets, loc, rounds', chances, boltzmann, startTemp)
    ensures rounds == rounds'
  {
    hide Drawn, Judged, AllChosen, Placed, MovesOk, NetsOk, EndPos, EndLast, TempAt;
    if rounds != [] {
      var n := |rounds| - 1;
      RoundsFront(elements, nets, loc, rounds, p0, b0, chances, boltzmann, startTemp);
      RoundsFront(elements, nets, loc, rounds', p0, b0, chances, boltzmann, startTemp);
      RunUnique(elements, nets, loc, rounds[..n], rounds'[..n], p0, b0, chances, boltzmann, startTemp);
      assert RoundJudged(nets, loc, rounds, n, chances, boltzmann, startTemp);
      assert RoundJudged(nets, loc, rounds', n, chances, boltzmann, startTemp);
      var before := AllChosen(rounds[..n], chances, boltzmann, startTemp);
      RoundUnique(elements, nets, Placed(loc, before), rounds[n], rounds'[n], EndPos(rounds[..n], p0),
                  EndLast(rounds[..n], b0), chances, boltzmann, TempAt(startTemp, n + 1));
      assert rounds == rounds[..n] + [rounds[n]] && rounds' == rounds'[..n] + [rounds'[n]];
    }
  }

  lemma RoundsFront(elements: nat -> nat, nets: seq<Net>, loc: seq<Loc>, rounds: seq<seq<Attempt>>,
          p0: nat, b0: nat, chances: nat -> real, boltzmann: (int, real) -> real, startTemp: real)
    requires NetsOk(nets, |loc|) && rounds != [] && RoundsDrawn(elements, rounds, p0, b0)
    requires RoundsJudged(nets, loc, rounds, chances, boltzmann, startTemp)
    ensures RoundsDrawn(elements, rounds[..|rounds| - 1], p0, b0)
    ensures RoundsJudged(nets, loc, rounds[..|rounds| - 1], chances, boltzmann, startTemp)
  {
    hide Drawn, Judged, AllChosen, Placed, MovesOk, NetsOk, EndPos, EndLast, TempAt;
    var front := rounds[..|rounds| - 1];
    forall t | 0 <= t < |front| ensures front[..t] == rounds[..t] {
    }
    forall t | 0 <= t < |front| ensures RoundJudged(nets, loc, front, t, chances, boltzmann, startTemp) {
      assert RoundJudged(nets, loc, rounds, t, chances, boltzmann, startTemp);
    }
  }

  /** keep_going: with -1 steps as long as more moves lower the cost than raise it, else a fixed number of steps. */
  predicate KeepGoing(steps: int, completed: nat, good: int, bad: int) {
    if steps == -1 then good > bad else completed < steps
  }

  /** In this round more accepted moves lowered the cost than raised it. */
  ghost predicate Improved(tried: seq<Attempt>, chances: nat -> real, boltzmann: (int, real) -> real, temp: real) {
    Gains(tried) > |Chosen(tried, chances, boltzmann, temp)| - Gains(tried)
  }

  /** The first n rounds have improved the netlist. */
  ghost predicate AllImproved(rounds: seq<seq<Attempt>>, n: int, chances: nat -> real,
          boltzmann: (int, real) -> real, startTemp: real) {
    forall t :: 0 <= t < n && t < |rounds| ==> Improved(rounds[t], chances, boltzmann, TempAt(startTemp, t + 1))
  }

  lemma KeptGoing(rounds: seq<seq<Attempt>>, tried: seq<Attempt>, good: nat, bad: nat,
          chances: nat -> real, boltzmann: (int, real) -> real, startTemp: real)
    requires AllImproved(rounds, |rounds|, chances, boltzmann, startTemp)
    requires good == Gains(tried)
    requires |Chosen(tried, chances, boltzmann, TempAt(startTemp, |rounds| + 1))| == good + bad
    ensures AllImproved(rounds + [tried], |rounds|, chances, boltzmann, startTemp)
    ensures good > bad <==> AllImproved(rounds + [tried], |rounds| + 1, chances, boltzmann, startTemp)
  {
    hide Chosen, Gains, TempAt;
    var all := rounds + [tried];
    assert all[|rounds|] == tried;
    assert forall t :: 0 <= t < |rounds| ==> all[t] == rounds[t];
    if good > bad {
      assert Improved(all[|rounds|], chances, boltzmann, TempAt(startTemp, |rounds| + 1));
    }
  }

  lemma NoneImproved(chances: nat -> real, boltzmann: (int, real) -> real, startTemp: real)
    ensures AllImproved([], -1, chances, boltzmann, startTemp) && AllImproved([], 0, chances, boltzmann, startTemp)
  {
  }

  lemma KeepGoingIs(steps: int, completed: nat, good: int, bad: int)
    ensures KeepGoing(steps, completed, good, bad) <==> if steps == -1 then good > bad else completed < steps
  {
  }

  /**
   * The serial run, each step with the temperature divided by 1.5: the locations stay a permutation, and the wire
   * length has changed by the deltas of the accepted moves plus twice what they leave out.  With -1 steps the run
   * goes on until a round that has not improved the netlist.
   */
  method Run(c: Circuit, rng: Rng, swaps: nat, startTemp: real, steps: int, fuel: nat,
          boltzmann: (int, real) -> real)
    returns (ended: bool, ghost rounds: seq<seq<Attempt>>, ghost moves: seq<Move>)
    requires c.Valid() && rng.Draws(c.chipSize)
    modifies c`loc, rng
    ensures c.Valid() && |c.loc| == |old(c.loc)|
    ensures forall t :: 0 <= t < |rounds| ==> |rounds[t]| == swaps
    ensures steps != -1 ==> ended && |rounds| == if steps < 0 then 0 else steps
    ensures steps == -1 ==> AllImproved(rounds, |rounds| - 1, rng.chances, boltzmann, startTemp)
    ensures steps == -1 ==> (ended <==> !AllImproved(rounds, |rounds|, rng.chances, boltzmann, startTemp))
    ensures steps == -1 && !ended ==> |rounds| == fuel
    ensures RoundsDrawn(rng.elements, rounds, old(rng.pos) + 2, rng.elements(old(rng.pos) + 1))
    ensures rng.pos == EndPos(rounds, old(rng.pos) + 2)
    ensures NetsOk(c.nets, |c.loc|) && RoundsJudged(c.nets, old(c.loc), rounds, rng.chances, boltzmann, startTemp)
    ensures moves == AllChosen(rounds, rng.chances, boltzmann, startTemp)
    ensures MovesOk(moves, |c.loc|) && c.loc == Placed(old(c.loc), moves)
    ensures multiset(c.loc) == multiset(old(c.loc)) && DeltasOk(c.nets, old(c.loc), moves)
    ensures WireLength(c.nets, c.loc)
         == WireLength(c.nets, old(c.loc)) + Booked(moves) + 2 * Missed(c.nets, old(c.loc), moves)
  {
    hide *;
    CircuitFacts(c);
    NoMoves(c.nets, c.loc);
    moves, rounds := [], [];
    var temp := startTemp;
    NoRound(rng.chances, boltzmann, startTemp);
    NoneImproved(rng.chances, boltzmann, startTemp);
    var a := rng.GetRandomElement(c.chipSize, NO_MATCHING_ELEMENT);
    AnyElement(rng.elements, old(rng.pos), rng.pos - 1);
    var b: nat := rng.GetRandomElement(c.chipSize, NO_MATCHING_ELEMENT);
    AnyElement(rng.elements, old(rng.pos) + 1, rng.pos - 1);
    ghost var p0, b0 := old(rng.pos) + 2, rng.elements(old(rng.pos) + 1);
    NoRounds(rng.elements, c.nets, c.loc, p0, b0, rng.chances, boltzmann, startTemp);
    var good: int, bad: int, completed: nat := 0, -1, 0;
    KeepGoingIs(steps, completed, good, bad);
    while KeepGoing(steps, completed, good, bad) && (steps != -1 || completed < fuel)
      invariant c.Valid() && b < c.chipSize
      invariant KeepGoing(steps, completed, good, bad) == if steps == -1 then good > bad else completed < steps
      invariant |c.loc| == |old(c.loc)| && NetsOk(c.nets, |c.loc|) && temp == TempAt(startTemp, completed)
      invariant |rounds| == completed && forall t :: 0 <= t < completed ==> |rounds[t]| == swaps
      invariant steps != -1 ==> completed <= if steps < 0 then 0 else steps
      invariant steps == -1 ==> completed <= fuel
      invariant steps == -1 ==> AllImproved(rounds, completed - 1, rng.chances, boltzmann, startTemp)
      invariant steps == -1 ==> (good > bad <==> AllImproved(rounds, completed, rng.chances, boltzmann, startTemp))
      invariant RoundsDrawn(rng.elements, rounds, p0, b0) && rng.pos == EndPos(rounds, p0) && b == EndLast(rounds, b0)
      invariant RoundsJudged(c.nets, old(c.loc), rounds, rng.chances, boltzmann, startTemp)
      invariant moves == AllChosen(rounds, rng.chances, boltzmann, startTemp)
      invariant MovesOk(moves, |c.loc|) && c.loc == Placed(old(c.loc), moves) && DeltasOk(c.nets, old(c.loc), moves)
      decreases if steps == -1 then fuel - completed else steps - completed
    {
      temp := temp / 1.5;
      ghost var tried, more;
      good, bad, b, tried, more := MovesAtTemperature(c, rng, swaps, temp, boltzmann, b);
      NextDrawn(rng.elements, rounds, tried, p0, b0);
      OneRound(rounds, tried, rng.chances, boltzmann, startTemp);
      NextJudged(c.nets, old(c.loc), rounds, tried, rng.chances, boltzmann, startTemp);
      PlacedConcat(old(c.loc), moves, more);
      DeltasConcat(c.nets, old(c.loc), moves, more);
      if steps == -1 { KeptGoing(rounds, tried, good, bad, rng.chances, boltzmann, startTemp); }
      moves, rounds := moves + more, rounds + [tried];
      completed := completed + 1;
      KeepGoingIs(steps, completed, good, bad);
    }
    ended := !KeepGoing(steps, completed, good, bad);
    RunCost(c.nets, old(c.loc), moves);
    PlacedKeeps(old(c.loc), moves);
  }
}
