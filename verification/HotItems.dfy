/** Bit masks over the hot items (the lowest order numbers) and the descending sweep's notion of parent:
    a mask without its top bit. */
module HotItems {
  import opened FpDatabase

  function Pow2(n: nat): (p: nat)
    ensures p >= 1
  {
    if n == 0 then 1 else 2 * Pow2(n - 1)
  }

  /** The bit positions set in m, ascending. */
  function Bits(m: nat, n: nat): seq<nat>
    requires m < Pow2(n)
  {
    if n == 0 then []
    else if m >= Pow2(n - 1) then Bits(m - Pow2(n - 1), n - 1) + [n - 1]
    else Bits(m, n - 1)
  }

  lemma {:induction false} BitsAscending(m: nat, n: nat)
    requires m < Pow2(n)
    ensures Ascending(Bits(m, n)) && Below(Bits(m, n), n)
  {
    if n > 0 {
      BitsAscending(if m >= Pow2(n - 1) then m - Pow2(n - 1) else m, n - 1);
    }
  }

  ghost function Value(ids: seq<nat>): nat {
    if ids == [] then 0 else Value(ids[..|ids| - 1]) + Pow2(ids[|ids| - 1])
  }

  lemma {:induction false} ValueOfBits(m: nat, n: nat)
    requires m < Pow2(n)
    ensures Value(Bits(m, n)) == m
  {
    if n > 0 {
      if m >= Pow2(n - 1) {
        ValueOfBits(m - Pow2(n - 1), n - 1);
        var b := Bits(m - Pow2(n - 1), n - 1);
        assert (b + [n - 1])[..|b|] == b;
      } else {
        ValueOfBits(m, n - 1);
      }
    }
  }

  lemma {:induction false} ValueOfPrefix(a: seq<nat>, b: seq<nat>)
    requires a <= b
    ensures Value(a) <= Value(b)
  {
    if |a| < |b| {
      ValueOfPrefix(a, b[..|b| - 1]);
    } else {
      assert a == b;
    }
  }

  lemma BitsInjective(a: nat, b: nat, n: nat)
    requires a < Pow2(n) && b < Pow2(n)
    requires Bits(a, n) == Bits(b, n)
    ensures a == b
  {
    ValueOfBits(a, n);
    ValueOfBits(b, n);
  }

  /** hot_node_index of a nonzero mask. */
  function TopBit(m: nat, n: nat): (i: nat)
    requires 0 < m < Pow2(n)
    ensures i < n && Pow2(i) <= m < Pow2(i + 1)
  {
    if m >= Pow2(n - 1) then n - 1 else TopBit(m, n - 1)
  }

  /** The mask without its top bit: i ^ (1 << hot_node_index[i]). */
  function Parent(m: nat, n: nat): (p: nat)
    requires 0 < m < Pow2(n)
    ensures p < m
  {
    m - Pow2(TopBit(m, n))
  }

  lemma {:induction false} BitsOfParent(m: nat, n: nat)
    requires 0 < m < Pow2(n)
    ensures Bits(m, n) == Bits(Parent(m, n), n) + [TopBit(m, n)]
  {
    if m >= Pow2(n - 1) {
    } else {
      BitsOfParent(m, n - 1);
    }
  }

  /** m | (1 << i) for a mask of n bits. */
  function OrBit(m: nat, i: nat, n: nat): (r: nat)
    requires m < Pow2(n) && i < n
    ensures r < Pow2(n)
  {
    if m >= Pow2(n - 1) then
      if i == n - 1 then m else Pow2(n - 1) + OrBit(m - Pow2(n - 1), i, n - 1)
    else
      if i == n - 1 then m + Pow2(n - 1) else OrBit(m, i, n - 1)
  }

  lemma {:induction false} OrBitBits(m: nat, i: nat, n: nat)
    requires m < Pow2(n) && i < n
    ensures forall x :: x in Bits(OrBit(m, i, n), n) <==> x in Bits(m, n) || x == i
  {
    BitsAscending(m, n);
    if i == n - 1 {
      if m < Pow2(n - 1) { assert Bits(m + Pow2(n - 1), n) == Bits(m, n - 1) + [n - 1]; }
    } else if m >= Pow2(n - 1) {
      OrBitBits(m - Pow2(n - 1), i, n - 1);
    } else {
      OrBitBits(m, i, n - 1);
    }
  }

  lemma ZeroBits(n: nat)
    ensures Bits(0, n) == []
  {
    if n > 0 { ZeroBits(n - 1); }
  }

  /** Where a mask's weight sits once all masks above i have been folded into their parents. */
  ghost function Lift(e: nat, i: nat, n: nat): nat
    requires e < Pow2(n)
  {
    if e > i then Lift(Parent(e, n), i, n) else e
  }

  /** The sweep brings to mask i exactly the masks whose bit list starts with the bits of i. */
  lemma {:induction false} LiftReaches(e: nat, i: nat, n: nat)
    requires e < Pow2(n) && i < Pow2(n)
    ensures Lift(e, i, n) == i <==> Bits(i, n) <= Bits(e, n)
  {
    var b, be := Bits(i, n), Bits(e, n);
    if e > i {
      LiftReaches(Parent(e, n), i, n);
      BitsOfParent(e, n);
      if b <= be && |b| == |be| {
        BitsInjective(i, e, n);
        assert false;
      }
    } else if b <= be {
      ValueOfPrefix(b, be);
      ValueOfBits(i, n);
      ValueOfBits(e, n);
    }
  }

  lemma LiftStep(e: nat, i: nat, n: nat)
    requires e < Pow2(n) && 0 < i < Pow2(n)
    ensures Lift(e, i - 1, n) == if Lift(e, i, n) == i then Parent(i, n) else Lift(e, i, n)
  {
    if e > i { LiftStep(Parent(e, n), i, n); }
  }
}
