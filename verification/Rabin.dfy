/** Rabin fingerprints of dedup: table-driven hashing against polynomial arithmetic over GF(2), and the
    segmentation that cuts where the rolling value has twelve zero bits. */
module Rabin {
  const IRRPOLY: bv32 := 0x45c2b6a1
  const NWINDOW := 32
  const RABIN_MASK: bv32 := 0xfff

  type Byte = bv8

  // ---- Polynomials -------------------------------------------------------------------------------

  /** A polynomial over GF(2) is the set of its exponents; addition is symmetric difference. */
  type Poly = set<nat>

  ghost function Add(a: Poly, b: Poly): Poly {
    (a - b) + (b - a)
  }

  ghost function Shift(a: Poly, k: nat): Poly {
    set e | e in a :: e + k
  }

  predicate Bit(h: bv32, e: nat) {
    e < 32 && (h >> (e as bv32)) & 1 == 1
  }

  /** The terms of the word h, a polynomial of degree below 32. */
  ghost function Terms(h: bv32): Poly {
    set e: nat | e < 32 && Bit(h, e)
  }

  /** X^32 + irrpoly, the modulus. */
  ghost function Modulus(): Poly {
    Terms(IRRPOLY) + {32}
  }

  /** The product of p with the polynomial whose coefficients are q, most significant first. */
  ghost function Times(q: seq<bool>, p: Poly): Poly {
    if q == [] then {} else Add(Shift(Times(q[..|q| - 1], p), 1), if q[|q| - 1] then p else {})
  }

  ghost predicate Multiple(a: Poly) {
    exists q :: a == Times(q, Modulus())
  }

  /** a and b leave the same remainder. */
  ghost predicate Congruent(a: Poly, b: Poly) {
    Multiple(Add(a, b))
  }

  /** The polynomial of a bit string, most significant first. */
  ghost function BitPoly(bits: seq<bool>): Poly {
    Times(bits, {0})
  }

  /** The operations on words, named so that a proof can leave their bits alone. */
  function XorW(a: bv32, b: bv32): bv32 {
    a ^ b
  }

  function Shl(h: bv32): bv32 {
    h << 1
  }

  predicate Top(h: bv32) {
    h >> 31 != 0
  }

  function Word(c: Byte): bv32 {
    c as bv32
  }

  function BitW(bit: bool): bv32 {
    if bit then 1 else 0
  }

  /** Multiply by X modulo X^32 + irrpoly. */
  function MulX(h: bv32): bv32 {
    if Top(h) then XorW(Shl(h), IRRPOLY) else Shl(h)
  }

  function MulXn(h: bv32, n: nat): bv32 {
    if n == 0 then h else MulX(MulXn(h, n - 1))
  }

  function ByteBits(c: Byte, n: nat): seq<bool>
    requires n <= 8
  {
    if n == 0 then [] else ByteBits(c >> 1, n - 1) + [Low(c)]
  }

  function Bits(data: seq<Byte>): seq<bool> {
    if data == [] then [] else Bits(data[..|data| - 1]) + ByteBits(data[|data| - 1], 8)
  }

  /** The remainder of a byte string, bit by bit. */
  function BitResidue(bits: seq<bool>): bv32 {
    if bits == [] then 0 else XorW(MulX(BitResidue(bits[..|bits| - 1])), BitW(bits[|bits| - 1]))
  }

  /** The remainder of a byte string, byte by byte. */
  function Residue(data: seq<Byte>): bv32 {
    if data == [] then 0 else XorW(MulXn(Residue(data[..|data| - 1]), 8), Word(data[|data| - 1]))
  }

  lemma AddCancels(a: Poly, b: Poly, c: Poly)
    ensures Add(Add(a, b), c) == Add(a, Add(b, c)) && Add(a, {}) == a && Add(a, a) == {} && Add(a, b) == Add(b, a)
  {
  }

  lemma AddFour(a: Poly, b: Poly, c: Poly, d: Poly)
    ensures Add(Add(a, b), Add(c, d)) == Add(Add(a, c), Add(b, d))
  {
    forall e ensures e in Add(Add(a, b), Add(c, d)) <==> e in Add(Add(a, c), Add(b, d)) {}
  }

  lemma ShiftAdd(a: Poly, b: Poly, k: nat)
    ensures Shift(Add(a, b), k) == Add(Shift(a, k), Shift(b, k))
  {
    forall e: nat ensures e in Shift(a, k) <==> e >= k && e - k in a {
      if e >= k && e - k in a { assert (e - k) + k in Shift(a, k); }
    }
    forall e: nat ensures e in Shift(b, k) <==> e >= k && e - k in b {
      if e >= k && e - k in b { assert (e - k) + k in Shift(b, k); }
    }
    var c := Add(a, b);
    forall e: nat ensures e in Shift(c, k) <==> e >= k && e - k in c {
      if e >= k && e - k in c { assert (e - k) + k in Shift(c, k); }
    }
  }

  lemma MultipleStep(a: Poly, bit: bool)
    requires Multiple(a)
    ensures Multiple(Add(Shift(a, 1), if bit then Modulus() else {}))
  {
    var q :| a == Times(q, Modulus());
    assert (q + [bit])[..|q|] == q;
    assert Times(q + [bit], Modulus()) == Add(Shift(a, 1), if bit then Modulus() else {});
  }

  // ---- Remainders are unique ---------------------------------------------------------------------

  lemma {:induction false} LeadingZeros(q: seq<bool>, k: nat, p: Poly)
    ensures Times(seq(k, _ => false) + q, p) == Times(q, p)
  {
    var zeros := seq(k, _ => false);
    if q != [] {
      LeadingZeros(q[..|q| - 1], k, p);
      assert (zeros + q)[..|zeros + q| - 1] == zeros + q[..|q| - 1];
    } else if k > 0 {
      LeadingZeros([], k - 1, p);
      assert zeros + [] == (seq(k - 1, _ => false) + []) + [false];
      assert Shift({}, 1) == {};
    } else {
      assert zeros + [] == [];
    }
  }

  function Xor(q: seq<bool>, r: seq<bool>): (s: seq<bool>)
    requires |q| == |r|
    ensures |s| == |q|
  {
    if q == [] then [] else Xor(q[..|q| - 1], r[..|r| - 1]) + [q[|q| - 1] != r[|r| - 1]]
  }

  lemma {:induction false} TimesXor(q: seq<bool>, r: seq<bool>, p: Poly)
    requires |q| == |r|
    ensures Add(Times(q, p), Times(r, p)) == Times(Xor(q, r), p)
  {
    hide *;
    NoTerms(p);
    if q == [] {
    } else {
      var q', r' := q[..|q| - 1], r[..|r| - 1];
      var a, b := q[|q| - 1], r[|r| - 1];
      TimesXor(q', r', p);
      ShiftAdd(Times(q', p), Times(r', p), 1);
      AddFour(Shift(Times(q', p), 1), Pick(a, p), Shift(Times(r', p), 1), Pick(b, p));
      PickXor(a, b, p);
      XorLast(q, r);
      TimesIs(q, p);
      TimesIs(r, p);
      TimesIs(Xor(q, r), p);
    }
  }

  ghost function Pick(b: bool, p: Poly): Poly {
    if b then p else {}
  }

  lemma PickXor(a: bool, b: bool, p: Poly)
    ensures Add(Pick(a, p), Pick(b, p)) == Pick(a != b, p)
  {
  }

  lemma TimesIs(q: seq<bool>, p: Poly)
    requires q != []
    ensures Times(q, p) == Add(Shift(Times(q[..|q| - 1], p), 1), Pick(q[|q| - 1], p))
  {
    hide Add, Shift;
  }

  lemma NoTerms(p: Poly)
    ensures Times([], p) == {} && Add({}, {}) == {}
  {
  }

  lemma XorLast(q: seq<bool>, r: seq<bool>)
    requires |q| == |r| != 0
    ensures Xor(q, r)[..|q| - 1] == Xor(q[..|q| - 1], r[..|r| - 1])
    ensures Xor(q, r)[|q| - 1] == (q[|q| - 1] != r[|r| - 1])
  {
  }

  lemma MultipleSum(a: Poly, b: Poly)
    requires Multiple(a) && Multiple(b)
    ensures Multiple(Add(a, b))
  {
    var q :| a == Times(q, Modulus());
    var r :| b == Times(r, Modulus());
    LeadingZeros(q, |r|, Modulus());
    LeadingZeros(r, |q|, Modulus());
    TimesXor(seq(|r|, _ => false) + q, seq(|q|, _ => false) + r, Modulus());
  }

  ghost predicate Small(a: Poly) {
    forall e :: e in a ==> e < 32
  }

  /** No multiple of the modulus but 0 has degree below 32. */
  lemma {:induction false} SmallMultiple(q: seq<bool>)
    ensures Times(q, Modulus()) == {} || !Small(Times(q, Modulus()))
  {
    if q != [] {
      var a := Times(q[..|q| - 1], Modulus());
      SmallMultiple(q[..|q| - 1]);
      if a == {} {
        assert Shift(a, 1) == {};
        assert 32 in Modulus();
      } else {
        var e :| e in a && e >= 32;
        assert e + 1 in Shift(a, 1);
        assert e + 1 !in Modulus();
        assert e + 1 in Times(q, Modulus());
      }
    }
  }

  lemma RemainderUnique(m: Poly, a: Poly, b: Poly)
    requires Small(a) && Small(b) && Congruent(m, a) && Congruent(m, b)
    ensures a == b
  {
    MultipleSum(Add(m, a), Add(m, b));
    assert Add(Add(m, a), Add(m, b)) == Add(a, b);
    var q :| Add(a, b) == Times(q, Modulus());
    SmallMultiple(q);
    assert Add(a, b) == {};
    assert forall e: nat :: e in a <==> e in b;
  }

  // ---- Words -------------------------------------------------------------------------------------

  lemma XorShifted(a: bv32, b: bv32, s: bv32)
    requires s < 32
    ensures ((a ^ b) >> s) & 1 == ((a >> s) & 1) ^ ((b >> s) & 1)
    ensures (a >> s) & 1 == 0 || (a >> s) & 1 == 1
    ensures (b >> s) & 1 == 0 || (b >> s) & 1 == 1
  {
  }

  lemma BitOfXor(a: bv32, b: bv32, e: nat)
    requires e < 32
    ensures Bit(a ^ b, e) <==> (Bit(a, e) != Bit(b, e))
  {
    XorShifted(a, b, e as bv32);
  }

  lemma TermIs(h: bv32, e: nat)
    ensures e in Terms(h) <==> e < 32 && Bit(h, e)
  {
    hide Bit;
  }

  lemma SumIs(a: Poly, b: Poly, e: nat)
    ensures e in Add(a, b) <==> (e in a) != (e in b)
  {
  }

  lemma XorIs(a: bv32, b: bv32)
    ensures XorW(a, b) == a ^ b
  {
  }

  lemma TermsXor(a: bv32, b: bv32)
    ensures Terms(XorW(a, b)) == Add(Terms(a), Terms(b))
  {
    hide *;
    XorIs(a, b);
    forall e: nat ensures e in Terms(XorW(a, b)) <==> e in Add(Terms(a), Terms(b)) {
      TermIs(XorW(a, b), e);
      TermIs(a, e);
      TermIs(b, e);
      SumIs(Terms(a), Terms(b), e);
      if e < 32 { BitOfXor(a, b, e); }
    }
  }

  lemma BitOfShift(h: bv32, e: nat)
    requires e < 31
    ensures Bit(h << 1, e + 1) <==> Bit(h, e)
  {
    NextExponent(e);
    ShiftShifted(h, e as bv32);
  }

  lemma SmallWord(s: bv32)
    requires s as int < 32
    ensures s < 32
  {
  }

  /** The word that holds e. */
  ghost function WordFor(e: nat): (s: bv32)
    requires e < 32
    ensures s as int == e && s < 32
  {
    if e == 0 then 0
    else
      SmallWord(WordFor(e - 1));
      NextWord(WordFor(e - 1));
      SmallWord(WordFor(e - 1) + 1);
      WordFor(e - 1) + 1
  }

  lemma IntOfWord(e: nat)
    requires e < 32
    ensures (e as bv32) as int == e && (e as bv32) < 32
  {
    var s := WordFor(e);
    assert (s as int) as bv32 == s;
  }

  lemma WordOfInt(s: bv32)
    ensures (s as int) as bv32 == s
  {
  }

  lemma NextWord(s: bv32)
    requires s < 32
    ensures (s + 1) as int == (s as int) + 1
  {
  }

  lemma NextExponent(e: nat)
    requires e < 31
    ensures (e + 1) as bv32 == (e as bv32) + 1 && (e as bv32) < 31
  {
    var s := e as bv32;
    IntOfWord(e);
    NextWord(s);
    WordOfInt(s + 1);
  }

  lemma ShiftShifted(h: bv32, s: bv32)
    requires s < 31
    ensures ((h << 1) >> (s + 1)) & 1 == (h >> s) & 1
  {
  }

  lemma TermsShift(h: bv32)
    ensures Shift(Terms(h), 1) == Terms(h << 1) + (if h >> 31 != 0 then {32} else {}) && 32 !in Terms(h << 1)
  {
    forall e: nat ensures e in Shift(Terms(h), 1) <==> e in Terms(h << 1) + (if h >> 31 != 0 then {32} else {}) {
      if 1 <= e < 32 {
        BitOfShift(h, e - 1);
        if e in Terms(h << 1) { assert e - 1 in Terms(h); }
      }
      if e == 32 {
        assert 31 in Terms(h) <==> h >> 31 != 0;
        if h >> 31 != 0 { assert 31 + 1 in Shift(Terms(h), 1); }
      }
      assert !Bit(h << 1, 0);
    }
  }

  /** MulX is multiplication by X, up to one subtraction of the modulus. */
  lemma MulXShifts(h: bv32)
    ensures Terms(MulX(h)) == if Top(h) then Add(Shift(Terms(h), 1), Modulus()) else Shift(Terms(h), 1)
  {
    TermsShift(h);
    TermsXor(Shl(h), IRRPOLY);
    if h >> 31 != 0 {
      var a, b := Terms(h << 1), Terms(IRRPOLY);
      assert 32 !in b;
      assert Add(a + {32}, b + {32}) == Add(a, b);
    }
  }

  // ---- Bit-serial remainder ----------------------------------------------------------------------

  lemma {:induction false} BitResidueCongruent(bits: seq<bool>)
    ensures Congruent(BitPoly(bits), Terms(BitResidue(bits)))
  {
    if bits == [] {
      assert Times([], Modulus()) == {};
      assert Add(BitPoly(bits), Terms(0)) == {};
    } else {
      BitResidueCongruent(bits[..|bits| - 1]);
      CongruentStep(bits[..|bits| - 1], bits[|bits| - 1]);
      assert bits == bits[..|bits| - 1] + [bits[|bits| - 1]];
    }
  }

  lemma BitPolyAppend(bits: seq<bool>, bit: bool)
    ensures BitPoly(bits + [bit]) == Add(Shift(BitPoly(bits), 1), if bit then {0} else {})
    ensures BitResidue(bits + [bit]) == XorW(MulX(BitResidue(bits)), BitW(bit))
  {
    hide *;
    BitPolyIs(bits + [bit]);
    BitResidueIs(bits + [bit]);
  }

  lemma BitPolyIs(bits: seq<bool>)
    requires bits != []
    ensures BitPoly(bits) == Add(Shift(BitPoly(bits[..|bits| - 1]), 1), if bits[|bits| - 1] then {0} else {})
  {
  }

  lemma BitResidueIs(bits: seq<bool>)
    requires bits != []
    ensures BitResidue(bits) == XorW(MulX(BitResidue(bits[..|bits| - 1])), BitW(bits[|bits| - 1]))
  {
  }

  lemma CongruentStep(bits: seq<bool>, bit: bool)
    requires Congruent(BitPoly(bits), Terms(BitResidue(bits)))
    ensures Congruent(BitPoly(bits + [bit]), Terms(BitResidue(bits + [bit])))
  {
    hide *;
    var m, h := BitPoly(bits), BitResidue(bits);
    var one: Poly, p: Poly := if bit then {0} else {}, if Top(h) then Modulus() else {};
    BitPolyAppend(bits, bit);
    CongruentIs(m, Terms(h));
    MultipleStep(Add(m, Terms(h)), Top(h));
    ShiftAdd(m, Terms(h), 1);
    MulXShifts(h);
    AddCancels(Shift(Terms(h), 1), {}, {});
    TermsOfBit(bit);
    TermsXor(MulX(h), BitW(bit));
    StepPoly(Shift(m, 1), Shift(Terms(h), 1), p, one);
    IsCongruent(BitPoly(bits + [bit]), Terms(BitResidue(bits + [bit])));
  }

  lemma CongruentIs(a: Poly, b: Poly)
    requires Congruent(a, b)
    ensures Multiple(Add(a, b))
  {
  }

  lemma IsCongruent(a: Poly, b: Poly)
    requires Multiple(Add(a, b))
    ensures Congruent(a, b)
  {
  }

  lemma TermsOfBit(bit: bool)
    ensures Terms(BitW(bit)) == if bit then {0} else {}
  {
    forall e: nat ensures e in Terms(1) <==> e == 0 {
      if 0 < e < 32 { OneHasOneTerm(e as bv32); IntOfWord(e); }
    }
  }

  lemma OneHasOneTerm(s: bv32)
    requires s != 0 && s < 32
    ensures ((1 as bv32) >> s) & 1 == 0
  {
  }

  lemma StepPoly(m: Poly, h: Poly, p: Poly, one: Poly)
    ensures Add(Add(m, one), Add(Add(h, p), one)) == Add(Add(m, h), p)
  {
    forall e ensures e in Add(Add(m, one), Add(Add(h, p), one)) <==> e in Add(Add(m, h), p) {}
  }

  // ---- From bits to bytes ------------------------------------------------------------------------

  lemma MulXIs(h: bv32)
    ensures MulX(h) == if Top(h) then XorW(Shl(h), IRRPOLY) else Shl(h)
  {
  }

  lemma MulXLinear(a: bv32, b: bv32)
    ensures MulX(XorW(a, b)) == XorW(MulX(a), MulX(b))
  {
    hide *;
    MulXIs(a);
    MulXIs(b);
    MulXIs(XorW(a, b));
    TopXor(a, b);
    ShlXor(a, b);
    XorLaws(Shl(a), Shl(b), IRRPOLY);
  }

  lemma TopXor(a: bv32, b: bv32)
    ensures Top(XorW(a, b)) <==> Top(a) != Top(b)
  {
  }

  lemma ShlXor(a: bv32, b: bv32)
    ensures Shl(XorW(a, b)) == XorW(Shl(a), Shl(b))
  {
  }

  lemma XorAssoc(a: bv32, b: bv32, c: bv32)
    ensures XorW(XorW(a, b), c) == XorW(a, XorW(b, c))
  {
    assert (a ^ b) ^ c == a ^ (b ^ c);
  }

  lemma XorComm(a: bv32, b: bv32)
    ensures XorW(a, b) == XorW(b, a)
  {
  }

  lemma XorZero(a: bv32)
    ensures XorW(a, 0) == a && XorW(a, a) == 0 && XorW(0, a) == a
  {
  }

  lemma XorLaws(a: bv32, b: bv32, c: bv32)
    ensures XorW(XorW(a, b), c) == XorW(a, XorW(b, c))
    ensures XorW(XorW(a, b), c) == XorW(XorW(a, c), b)
    ensures XorW(XorW(a, c), XorW(b, c)) == XorW(a, b)
    ensures XorW(a, 0) == a && XorW(a, a) == 0 && XorW(0, a) == a
  {
    hide *;
    XorAssoc(a, b, c);
    XorComm(b, c);
    XorAssoc(a, c, b);
    XorAssoc(a, c, XorW(b, c));
    XorAssoc(c, b, c);
    XorComm(c, b);
    XorAssoc(b, c, c);
    XorZero(a);
    XorZero(b);
    XorZero(c);
  }

  lemma MulXnIs(h: bv32, n: nat)
    requires n > 0
    ensures MulXn(h, n) == MulX(MulXn(h, n - 1))
  {
  }

  lemma MulXn0(h: bv32)
    ensures MulXn(h, 0) == h
  {
  }

  lemma {:induction false} MulXnLinear(a: bv32, b: bv32, n: nat)
    ensures MulXn(XorW(a, b), n) == XorW(MulXn(a, n), MulXn(b, n))
  {
    hide *;
    if n == 0 {
      MulXn0(a);
      MulXn0(b);
      MulXn0(XorW(a, b));
    } else {
      MulXnLinear(a, b, n - 1);
      MulXLinear(MulXn(a, n - 1), MulXn(b, n - 1));
      MulXnIs(a, n);
      MulXnIs(b, n);
      MulXnIs(XorW(a, b), n);
    }
  }

  lemma {:induction false} MulXnAdd(h: bv32, m: nat, n: nat)
    ensures MulXn(MulXn(h, m), n) == MulXn(h, m + n)
  {
    if n > 0 { MulXnAdd(h, m, n - 1); }
  }

  lemma {:induction false} MulXnZero(n: nat)
    ensures MulXn(0, n) == 0
  {
    if n > 0 { MulXnZero(n - 1); }
  }

  predicate Fits(c: Byte, n: nat) {
    if n == 0 then c == 0 else Fits(c >> 1, n - 1)
  }

  lemma ByteFits(c: Byte)
    ensures Fits(c, 8)
  {
    var c1 := c >> 1;
    var c2 := c1 >> 1;
    var c3 := c2 >> 1;
    var c4 := c3 >> 1;
    var c5 := c4 >> 1;
    var c6 := c5 >> 1;
    var c7 := c6 >> 1;
    assert c7 >> 1 == 0;
    assert Fits(c7, 1);
    assert Fits(c5, 3);
    assert Fits(c3, 5);
    assert Fits(c1, 7);
  }

  lemma ByteBitsIs(c: Byte, n: nat)
    requires n <= 8 && Fits(c, n)
    ensures n == 0 ==> ByteBits(c, n) == [] && Word(c) == 0
    ensures n > 0 ==> ByteBits(c, n) == ByteBits(c >> 1, n - 1) + [Low(c)] && Fits(c >> 1, n - 1)
  {
  }

  predicate Low(c: Byte) {
    c & 1 == 1
  }

  lemma {:induction false} ByteStep(bits: seq<bool>, c: Byte, n: nat)
    requires n <= 8 && Fits(c, n)
    ensures BitResidue(bits + ByteBits(c, n)) == XorW(MulXn(BitResidue(bits), n), Word(c))
  {
    hide *;
    ByteBitsIs(c, n);
    if n == 0 {
      assert bits + [] == bits;
      MulXn0(BitResidue(bits));
      XorLaws(BitResidue(bits), 0, 0);
    } else {
      ByteStep(bits, c >> 1, n - 1);
      var h, front := MulXn(BitResidue(bits), n - 1), bits + ByteBits(c >> 1, n - 1);
      assert bits + ByteBits(c, n) == front + [Low(c)];
      BitPolyAppend(front, Low(c));
      MulXLinear(h, Word(c >> 1));
      MulXnIs(BitResidue(bits), n);
      XorLaws(MulX(h), MulX(Word(c >> 1)), BitW(Low(c)));
      LowBit(c);
    }
  }

  lemma LowBit(c: Byte)
    ensures XorW(MulX(Word(c >> 1)), BitW(Low(c))) == Word(c)
  {
  }

  lemma {:induction false} ResidueIsBitResidue(data: seq<Byte>)
    ensures Residue(data) == BitResidue(Bits(data))
  {
    if data != [] {
      ResidueIsBitResidue(data[..|data| - 1]);
      ByteFits(data[|data| - 1]);
      ByteStep(Bits(data[..|data| - 1]), data[|data| - 1], 8);
    }
  }

  /** The hash of a byte string is the remainder of its polynomial modulo X^32 + irrpoly, and nothing else is. */
  lemma ResidueIsRemainder(data: seq<Byte>, r: Poly)
    requires Small(r)
    ensures Congruent(BitPoly(Bits(data)), r) <==> r == Terms(Residue(data))
  {
    ResidueIsBitResidue(data);
    BitResidueCongruent(Bits(data));
    if Congruent(BitPoly(Bits(data)), r) {
      RemainderUnique(BitPoly(Bits(data)), r, Terms(Residue(data)));
    }
  }
}
