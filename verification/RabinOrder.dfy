/**
 * For which window lengths the tables of the rolling hash make it a hash of the last 32 bytes.  The answer
 * rests on the order of X modulo the polynomial, the least exponent that makes a power of X equal 1.
 */
module RabinOrder {
  import opened Rabin
  import opened RabinSeg

  const ORDER: nat := 1431655765

  // ---- Products of remainders --------------------------------------------------------------------

  /** One more bit of b, its top one, in the product of a and b. */
  function Next(a: bv32, b: bv32, r: bv32): bv32 {
    if Top(b) then XorW(MulX(r), a) else MulX(r)
  }

  function Four(a: bv32, b: bv32, r: bv32): bv32 {
    Next(a, Shl(Shl(Shl(b))), Next(a, Shl(Shl(b)), Next(a, Shl(b), Next(a, b, r))))
  }

  function Eight(a: bv32, b: bv32, r: bv32): bv32 {
    Four(a, Shl(Shl(Shl(Shl(b)))), Four(a, b, r))
  }

  /** The product of two remainders. */
  function Prod(a: bv32, b: bv32): bv32 {
    Eight(a, Shl8(Shl8(Shl8(b))), Eight(a, Shl8(Shl8(b)), Eight(a, Shl8(b), Eight(a, b, 0))))
  }

  /** The bits of b above those still to come. */
  function Taken(pre: bv32, b: bv32): bv32 {
    XorW(Shl(pre), if Top(b) then 1 else 0)
  }

  lemma NextIs(a: bv32, b: bv32, r: bv32, pre: bv32, n: nat)
    requires a == MulXn(1, n) && r == MulXn(pre, n) && !Top(pre)
    ensures Next(a, b, r) == MulXn(Taken(pre, b), n)
  {
    hide XorW, Shl, Top, MulXn;
    MulXnAdd(pre, 1, n);
    MulXnAdd(pre, n, 1);
    One(pre);
    One(MulXn(pre, n));
    MulXnLinear(MulX(pre), 1, n);
    XorZero(Shl(pre));
  }

  lemma One(h: bv32)
    ensures MulXn(h, 1) == MulX(h)
  {
    hide *;
    MulXnIs(h, 1);
    MulXn0(h);
  }

  function Taken4(pre: bv32, b: bv32): bv32 {
    Taken(Taken(Taken(Taken(pre, b), Shl(b)), Shl(Shl(b))), Shl(Shl(Shl(b))))
  }

  predicate Small(pre: bv32, k: bv32) { pre < k }

  lemma TakenSmall(pre: bv32, b: bv32)
    requires Small(pre, 0x1000_0000)
    ensures !Top(pre) && !Top(Taken(pre, b)) && !Top(Taken(Taken(pre, b), Shl(b)))
    ensures !Top(Taken(Taken(Taken(pre, b), Shl(b)), Shl(Shl(b))))
  {
  }

  lemma FourIs(a: bv32, b: bv32, r: bv32, pre: bv32, n: nat)
    requires a == MulXn(1, n) && r == MulXn(pre, n) && Small(pre, 0x1000_0000)
    ensures Four(a, b, r) == MulXn(Taken4(pre, b), n)
  {
    hide Small, Taken, Top, Shl, Next, MulXn;
    TakenSmall(pre, b);
    NextIs(a, b, r, pre, n);
    var p1, r1 := Taken(pre, b), Next(a, b, r);
    NextIs(a, Shl(b), r1, p1, n);
    var p2, r2 := Taken(p1, Shl(b)), Next(a, Shl(b), r1);
    NextIs(a, Shl(Shl(b)), r2, p2, n);
    var p3, r3 := Taken(p2, Shl(Shl(b))), Next(a, Shl(Shl(b)), r2);
    NextIs(a, Shl(Shl(Shl(b))), r3, p3, n);
  }

  function Taken8(pre: bv32, b: bv32): bv32 { XorW(Shl8(pre), b >> 24) }

  lemma Taken8Is(pre: bv32, b: bv32)
    requires Small(pre, 0x100_0000)
    ensures Taken4(Taken4(pre, b), Shl(Shl(Shl(Shl(b))))) == Taken8(pre, b)
    ensures Small(pre, 0x1000_0000) && Small(Taken4(pre, b), 0x1000_0000)
  {
  }

  lemma EightIs(a: bv32, b: bv32, r: bv32, pre: bv32, n: nat)
    requires a == MulXn(1, n) && r == MulXn(pre, n) && Small(pre, 0x100_0000)
    ensures Eight(a, b, r) == MulXn(Taken8(pre, b), n)
  {
    hide Small, Taken4, Taken8, Shl, Four, MulXn;
    Taken8Is(pre, b);
    FourIs(a, b, r, pre, n);
    FourIs(a, Shl(Shl(Shl(Shl(b)))), Four(a, b, r), Taken4(pre, b), n);
  }

  lemma TakenAll(b: bv32)
    ensures Small(0, 0x100_0000)
    ensures var p1 := Taken8(0, b);
            var p2 := Taken8(p1, Shl8(b));
            var p3 := Taken8(p2, Shl8(Shl8(b)));
            && Small(p1, 0x100_0000) && Small(p2, 0x100_0000) && Small(p3, 0x100_0000)
            && Taken8(p3, Shl8(Shl8(Shl8(b)))) == b
  {
  }

  /** Multiplying by X n times is multiplying by the n-th power of X. */
  lemma ProdIs(b: bv32, n: nat)
    ensures Prod(MulXn(1, n), b) == MulXn(b, n)
  {
    hide Small, Taken8, Shl8, Eight, MulXn;
    var a := MulXn(1, n);
    MulXnZero(n);
    TakenAll(b);
    var p1, r1 := Taken8(0, b), Eight(a, b, 0);
    EightIs(a, b, 0, 0, n);
    var p2, r2 := Taken8(p1, Shl8(b)), Eight(a, Shl8(b), r1);
    EightIs(a, Shl8(b), r1, p1, n);
    var p3, r3 := Taken8(p2, Shl8(Shl8(b))), Eight(a, Shl8(Shl8(b)), r2);
    EightIs(a, Shl8(Shl8(b)), r2, p2, n);
    EightIs(a, Shl8(Shl8(Shl8(b))), r3, p3, n);
  }

  // ---- Powers of X -------------------------------------------------------------------------------

  /** v is the n-th power of X. */
  ghost predicate IsPower(n: nat, v: bv32) { MulXn(1, n) == v }

  function Square(v: bv32): bv32 { Prod(v, v) }

  function Fourth(v: bv32): bv32 { Square(Square(Square(Square(v)))) }

  lemma Sum(m: nat, n: nat, u: bv32, v: bv32)
    requires IsPower(m, u) && IsPower(n, v)
    ensures IsPower(m + n, Prod(u, v))
  {
    hide MulXn, Prod;
    MulXnAdd(1, n, m);
    ProdIs(v, m);
  }

  lemma Twice(n: nat, v: bv32)
    requires IsPower(n, v)
    ensures IsPower(2 * n, Square(v))
  {
    Sum(n, n, v, v);
  }

  lemma Sixteenfold(n: nat, v: bv32)
    requires IsPower(n, v)
    ensures IsPower(16 * n, Fourth(v))
  {
    hide Square, IsPower;
    Twice(n, v);
    Twice(2 * n, Square(v));
    Twice(4 * n, Square(Square(v)));
    Twice(8 * n, Square(Square(Square(v))));
  }

  lemma First()
    ensures IsPower(1, 2)
  {
    One(1);
    assert MulX(1) == 2;
  }

  lemma Power5Table()
    ensures Square(0x2) == 0x4 && Square(0x4) == 0x10
    ensures Prod(0x2, 0x10) == 0x20
  {
  }

  lemma Power5()
    ensures IsPower(5, 0x20)
  {
    hide *;
    Power5Table();
    First();
    Twice(1, 0x2);
    Twice(2, 0x4);
    Sum(1, 4, 0x2, 0x10);
  }

  lemma Power85Table1()
    ensures Fourth(0x20) == 0xf206_a0a1
  {
  }

  lemma Power85Table2()
    ensures Prod(0x20, 0xf206_a0a1) == 0x32ea_cb38
  {
  }

  lemma Power85()
    ensures IsPower(85, 0x32ea_cb38)
  {
    hide *;
    Power5();
    Power85Table1();
    Sixteenfold(5, 0x20);
    Power85Table2();
    Sum(5, 80, 0x20, 0xf206_a0a1);
  }

  lemma Power21845Table1()
    ensures Fourth(0x32ea_cb38) == 0xda2a_d8bb
  {
  }

  lemma Power21845Table2()
    ensures Fourth(0xda2a_d8bb) == 0xe4be_101e
  {
  }

  lemma Power21845Table3()
    ensures Prod(0x32ea_cb38, 0xe4be_101e) == 0xd2b2_ad5e
  {
  }

  lemma Power21845()
    ensures IsPower(21845, 0xd2b2_ad5e)
  {
    hide *;
    Power85();
    Power21845Table1();
    Sixteenfold(85, 0x32ea_cb38);
    Power21845Table2();
    Sixteenfold(1360, 0xda2a_d8bb);
    Power21845Table3();
    Sum(85, 21760, 0x32ea_cb38, 0xe4be_101e);
  }

  lemma PowerOrderTable1()
    ensures Fourth(0xd2b2_ad5e) == 0xd677_0f05
  {
  }

  lemma PowerOrderTable2()
    ensures Fourth(0xd677_0f05) == 0x54ec_b780
  {
  }

  lemma PowerOrderTable3()
    ensures Fourth(0x54ec_b780) == 0x257b_4fbe
  {
  }

  lemma PowerOrderTable4()
    ensures Fourth(0x257b_4fbe) == 0x316d_735d
  {
  }

  lemma PowerOrderTable5()
    ensures Prod(0xd2b2_ad5e, 0x316d_735d) == 0x1
  {
  }

  lemma PowerOrder()
    ensures IsPower(1431655765, 0x1)
  {
    hide *;
    Power21845();
    PowerOrderTable1();
    Sixteenfold(21845, 0xd2b2_ad5e);
    PowerOrderTable2();
    Sixteenfold(349520, 0xd677_0f05);
    PowerOrderTable3();
    Sixteenfold(5592320, 0x54ec_b780);
    PowerOrderTable4();
    Sixteenfold(89477120, 0x257b_4fbe);
    PowerOrderTable5();
    Sum(21845, 1431633920, 0xd2b2_ad5e, 0x316d_735d);
  }

  lemma Power17Table1()
    ensures Fourth(0x2) == 0x1_0000
  {
  }

  lemma Power17Table2()
    ensures Prod(0x2, 0x1_0000) == 0x2_0000
  {
  }

  lemma Power17()
    ensures IsPower(17, 0x2_0000)
  {
    hide *;
    First();
    Power17Table1();
    Sixteenfold(1, 0x2);
    Power17Table2();
    Sum(1, 16, 0x2, 0x1_0000);
  }

  lemma Power4369Table1()
    ensures Fourth(0x2_0000) == 0x7d36_bfa5
  {
  }

  lemma Power4369Table2()
    ensures Fourth(0x7d36_bfa5) == 0x44e7_5821
  {
  }

  lemma Power4369Table3()
    ensures Prod(0x2_0000, 0x44e7_5821) == 0x2f20_330a
  {
  }

  lemma Power4369()
    ensures IsPower(4369, 0x2f20_330a)
  {
    hide *;
    Power17();
    Power4369Table1();
    Sixteenfold(17, 0x2_0000);
    Power4369Table2();
    Sixteenfold(272, 0x7d36_bfa5);
    Power4369Table3();
    Sum(17, 4352, 0x2_0000, 0x44e7_5821);
  }

  lemma PowerWithout5Table1()
    ensures Fourth(0x2f20_330a) == 0x1a15_f000
  {
  }

  lemma PowerWithout5Table2()
    ensures Fourth(0x1a15_f000) == 0xe1b4_8e32
  {
  }

  lemma PowerWithout5Table3()
    ensures Fourth(0xe1b4_8e32) == 0x4dcd_4d94
  {
  }

  lemma PowerWithout5Table4()
    ensures Fourth(0x4dcd_4d94) == 0xd5bd_16b8
  {
  }

  lemma PowerWithout5Table5()
    ensures Prod(0x2f20_330a, 0xd5bd_16b8) == 0xca2c_9b54
  {
  }

  lemma PowerWithout5()
    ensures IsPower(286331153, 0xca2c_9b54)
  {
    hide *;
    Power4369();
    PowerWithout5Table1();
    Sixteenfold(4369, 0x2f20_330a);
    PowerWithout5Table2();
    Sixteenfold(69904, 0x1a15_f000);
    PowerWithout5Table3();
    Sixteenfold(1118464, 0xe1b4_8e32);
    PowerWithout5Table4();
    Sixteenfold(17895424, 0x4dcd_4d94);
    PowerWithout5Table5();
    Sum(4369, 286326784, 0x2f20_330a, 0xd5bd_16b8);
  }

  lemma Power1285Table2()
    ensures Fourth(0xf206_a0a1) == 0xb023_b2d1
  {
  }

  lemma Power1285Table3()
    ensures Prod(0x20, 0xb023_b2d1) == 0xd3d8_5d72
  {
  }

  lemma Power1285()
    ensures IsPower(1285, 0xd3d8_5d72)
  {
    hide *;
    Power5();
    Power85Table1();
    Sixteenfold(5, 0x20);
    Power1285Table2();
    Sixteenfold(80, 0xf206_a0a1);
    Power1285Table3();
    Sum(5, 1280, 0x20, 0xb023_b2d1);
  }

  lemma PowerWithout17Table1()
    ensures Fourth(0xd3d8_5d72) == 0x92a9_2d63
  {
  }

  lemma PowerWithout17Table2()
    ensures Fourth(0x92a9_2d63) == 0x6ade_64aa
  {
  }

  lemma PowerWithout17Table3()
    ensures Fourth(0x6ade_64aa) == 0xfb51_0845
  {
  }

  lemma PowerWithout17Table4()
    ensures Fourth(0xfb51_0845) == 0xdfe0_c8fb
  {
  }

  lemma PowerWithout17Table5()
    ensures Prod(0xd3d8_5d72, 0xdfe0_c8fb) == 0xff64_6787
  {
  }

  lemma PowerWithout17()
    ensures IsPower(84215045, 0xff64_6787)
  {
    hide *;
    Power1285();
    PowerWithout17Table1();
    Sixteenfold(1285, 0xd3d8_5d72);
    PowerWithout17Table2();
    Sixteenfold(20560, 0x92a9_2d63);
    PowerWithout17Table3();
    Sixteenfold(328960, 0x6ade_64aa);
    PowerWithout17Table4();
    Sixteenfold(5263360, 0xfb51_0845);
    PowerWithout17Table5();
    Sum(1285, 84213760, 0xd3d8_5d72, 0xdfe0_c8fb);
  }

  lemma PowerWithout257Table3()
    ensures Fourth(0xe4be_101e) == 0xe54a_3fac
  {
  }

  lemma PowerWithout257Table4()
    ensures Fourth(0xe54a_3fac) == 0x4e27_91c6
  {
  }

  lemma PowerWithout257Table5()
    ensures Prod(0x32ea_cb38, 0x4e27_91c6) == 0x2b26_5192
  {
  }

  lemma PowerWithout257()
    ensures IsPower(5570645, 0x2b26_5192)
  {
    hide *;
    Power85();
    Power21845Table1();
    Sixteenfold(85, 0x32ea_cb38);
    Power21845Table2();
    Sixteenfold(1360, 0xda2a_d8bb);
    PowerWithout257Table3();
    Sixteenfold(21760, 0xe4be_101e);
    PowerWithout257Table4();
    Sixteenfold(348160, 0xe54a_3fac);
    PowerWithout257Table5();
    Sum(85, 5570560, 0x32ea_cb38, 0x4e27_91c6);
  }

  // ---- The order of X ----------------------------------------------------------------------------

  lemma {:induction false} PowersOf(n: nat, k: nat, m: nat)
    requires IsPower(n, 1)
    ensures k * n + m >= 0 && MulXn(1, k * n + m) == MulXn(1, m)
  {
    hide MulXn;
    if k > 0 {
      PowersOf(n, k - 1, m);
      assert k * n + m == n + ((k - 1) * n + m);
      MulXnAdd(1, n, (k - 1) * n + m);
    }
  }

  ghost predicate Prime(p: nat) {
    p > 1 && forall d :: 1 < d < p ==> p % d != 0
  }

  predicate NoDivisor(p: nat, k: nat) {
    k <= 1 || (p % k != 0 && NoDivisor(p, k - 1))
  }

  lemma {:induction false} NoDivisorUpTo(p: nat, k: nat, d: nat)
    requires NoDivisor(p, k) && 1 < d <= k
    ensures p % d != 0
  {
    if d < k { NoDivisorUpTo(p, k - 1, d); }
  }

  lemma Cofactor(p: nat, d: nat) returns (e: nat)
    requires 0 < d && p % d == 0
    ensures d * e == p
  {
    e := p / d;
  }

  lemma Multiple(e: nat, d: nat)
    requires 0 < e
    ensures (d * e) % e == 0
  {
    Residues(e, d, 0);
  }

  /** Trial division up to the square root decides primality. */
  lemma TrialDivision(p: nat, k: nat)
    requires p > 1 && NoDivisor(p, k) && p < (k + 1) * (k + 1)
    ensures Prime(p)
  {
    forall d | 1 < d < p ensures p % d != 0 {
      if p % d == 0 {
        var e := Cofactor(p, d);
        if d <= k {
          NoDivisorUpTo(p, k, d);
        } else {
          if e > k { Larger(d, e, k + 1); }
          Multiple(e, d);
          if e > 1 { NoDivisorUpTo(p, k, e); }
        }
      }
    }
  }

  lemma Larger(d: nat, e: nat, k: nat)
    requires d >= k && e >= k
    ensures d * e >= k * k
  {
    assert d * e >= k * e;
  }

  lemma Residues(p: nat, q: int, r: nat)
    requires r < p
    ensures (q * p + r) % p == r && (q * p + r) / p == q
  {
    var a := q * p + r;
    Unique(p, a / p, a % p, q, r);
  }

  lemma Unique(p: nat, q: int, r: int, q': int, r': int)
    requires 0 <= r < p && 0 <= r' < p && q * p + r == q' * p + r'
    ensures q == q' && r == r'
  {
    if q < q' {
      Gap(p, q, q');
    } else if q' < q {
      Gap(p, q', q);
    }
  }

  lemma Gap(p: nat, q: int, q': int)
    requires q < q' && 0 < p
    ensures q * p + p <= q' * p
  {
    var k := q' - q - 1;
    assert q' * p == q * p + p + k * p;
    assert k * p >= 0;
  }

  /** The greatest common divisor as a combination. */
  lemma {:induction false} Bezout(a: nat, b: nat) returns (g: nat, u: int, v: int)
    requires 0 < a
    ensures 0 < g && u * a + v * b == g && a % g == 0 && b % g == 0
    decreases b
  {
    if b == 0 {
      g, u, v := a, 1, 0;
      Residues(a, 1, 0);
      Residues(a, 0, 0);
    } else {
      var q, r := a / b, a % b;
      var u', v';
      g, u', v' := Bezout(b, r);
      u, v := v', u' - v' * q;
      Combine(a, b, q, r, u', v', g);
      Divides(b, r, q, g);
    }
  }

  lemma Combine(a: int, b: int, q: int, r: int, u: int, v: int, g: int)
    requires a == q * b + r && u * b + v * r == g
    ensures v * a + (u - v * q) * b == g
  {
    calc {
      v * a + (u - v * q) * b;
      v * (q * b + r) + (u * b - v * q * b);
      v * q * b + v * r + (u * b - v * q * b);
    }
  }

  lemma Divides(b: nat, r: nat, q: nat, g: nat)
    requires 0 < g && b % g == 0 && r % g == 0
    ensures (q * b + r) % g == 0
  {
    var x := Cofactor(b, g);
    var y := Cofactor(r, g);
    assert q * b + r == (q * x + y) * g;
    Residues(g, q * x + y, 0);
  }

  lemma PositivePart(x: nat, p: nat, b: int) returns (q: nat)
    requires x == 1 + b * p && 1 < p
    ensures q == b
  {
    if b < 0 { Gap(p, b, 0); }
    q := b;
  }

  lemma TrivialDivisor(p: nat, n: nat, g: nat)
    requires Prime(p) && n % p != 0 && 0 < g && p % g == 0 && n % g == 0
    ensures g == 1
  {
    if g > p { Residues(g, 0, p); }
  }

  lemma AtLeast(k: nat, p: nat)
    requires 0 < p
    ensures k * p >= k
  {
  }

  lemma Shifted(a: int, b: int, k: int, n: int, p: int)
    requires a * n + b * p == 1
    ensures (a + k * p) * n == 1 + (k * n - b) * p
  {
    assert (a + k * p) * n == a * n + k * p * n;
    assert (k * n - b) * p == k * p * n - b * p;
  }

  /** A number that is no multiple of a prime has an inverse. */
  lemma Inverse(p: nat, n: nat) returns (u: nat, q: nat)
    requires Prime(p) && n % p != 0
    ensures u * n == q * p + 1
  {
    var g, a, b := Bezout(n, p);
    TrivialDivisor(p, n, g);
    // make the coefficient of n positive
    var k: nat := if a < 0 then -a else 0;
    AtLeast(k, p);
    u := a + k * p;
    Shifted(a, b, k, n, p);
    q := PositivePart(u * n, p, k * n - b);
  }

  predicate NoDivisor8(p: nat, k: nat) {
    && p % (k + 1) != 0 && p % (k + 2) != 0 && p % (k + 3) != 0 && p % (k + 4) != 0
    && p % (k + 5) != 0 && p % (k + 6) != 0 && p % (k + 7) != 0 && p % (k + 8) != 0
  }

  lemma EightMore(p: nat, k: nat)
    requires NoDivisor(p, k) && NoDivisor8(p, k)
    ensures NoDivisor(p, k + 8)
  {
    assert NoDivisor(p, k + 1);
    assert NoDivisor(p, k + 2);
    assert NoDivisor(p, k + 3);
    assert NoDivisor(p, k + 4);
    assert NoDivisor(p, k + 5);
    assert NoDivisor(p, k + 6);
    assert NoDivisor(p, k + 7);
  }

  predicate NoDivisor64(p: nat, k: nat) {
    && NoDivisor8(p, k) && NoDivisor8(p, k + 8) && NoDivisor8(p, k + 16) && NoDivisor8(p, k + 24)
    && NoDivisor8(p, k + 32) && NoDivisor8(p, k + 40) && NoDivisor8(p, k + 48) && NoDivisor8(p, k + 56)
  }

  lemma SixtyFourMore(p: nat, k: nat)
    requires NoDivisor(p, k) && NoDivisor64(p, k)
    ensures NoDivisor(p, k + 64)
  {
    hide NoDivisor, NoDivisor8;
    EightMore(p, k);
    EightMore(p, k + 8);
    EightMore(p, k + 16);
    EightMore(p, k + 24);
    EightMore(p, k + 32);
    EightMore(p, k + 40);
    EightMore(p, k + 48);
    EightMore(p, k + 56);
  }

  lemma Divisors64()
    ensures NoDivisor64(65537, 1)
  {
    hide NoDivisor;
  }

  lemma Divisors128()
    ensures NoDivisor64(65537, 65)
  {
    hide NoDivisor;
  }

  lemma Divisors192()
    ensures NoDivisor64(65537, 129)
  {
    hide NoDivisor;
  }

  lemma Divisors256()
    ensures NoDivisor64(65537, 193)
  {
    hide NoDivisor;
  }

  lemma NoDivisor65537()
    ensures NoDivisor(65537, 257)
  {
    hide *;
    NoDivisorUpToOne(65537);
    Divisors64();
    Divisors128();
    Divisors192();
    Divisors256();
    SixtyFourMore(65537, 1);
    SixtyFourMore(65537, 65);
    SixtyFourMore(65537, 129);
    SixtyFourMore(65537, 193);
  }

  lemma NoDivisorUpToOne(p: nat)
    ensures NoDivisor(p, 1)
  {
  }

  lemma Primes()
    ensures Prime(5) && Prime(17) && Prime(257) && Prime(65537)
  {
    hide Prime;
    TrialDivision(5, 2);
    TrialDivision(17, 4);
    TrialDivision(257, 16);
    NoDivisor65537();
    TrialDivision(65537, 257);
  }

  /** If X^n is 1 for an n that the prime p does not divide, then X^(ORDER / p) is 1. */
  lemma PrimePart(p: nat, m: nat, n: nat)
    requires Prime(p) && p * m == ORDER && n % p != 0 && IsPower(n, 1)
    ensures IsPower(m, 1)
  {
    hide Prime;
    var u, q := Inverse(p, n);
    PowersOf(n, u * m, 0);
    PowerOrder();
    PowersOf(ORDER, q, m);
    ScaledBy(m, u, n, q, p);
    MulXn0(1);
  }

  lemma ScaledBy(m: nat, u: nat, n: nat, q: nat, p: nat)
    requires u * n == q * p + 1
    ensures (u * m) * n == q * (p * m) + m
  {
    calc {
      (u * m) * n;
      (u * n) * m;
      (q * p + 1) * m;
      q * (p * m) + m;
    }
  }

  /** Coprime divisors divide together. */
  lemma Together(p: nat, q: nat, u: nat, v: nat, n: nat)
    requires 0 < p && 0 < q && u * p == v * q + 1 && n % p == 0 && n % q == 0
    ensures 0 < p * q && n % (p * q) == 0
  {
    var x := Cofactor(n, p);
    var y := Cofactor(n, q);
    assert 0 < p * q;
    calc {
      n;
      (u * p - v * q) * n;
      (u * p) * (q * y) - (v * q) * (p * x);
      { TwoFactors(u, p, q, y); TwoFactors(v, q, p, x); }
      (u * y) * (p * q) - (v * x) * (p * q);
      (u * y - v * x) * (p * q) + 0;
    }
    Residues(p * q, u * y - v * x, 0);
  }

  lemma TwoFactors(u: int, p: int, q: int, y: int)
    ensures (u * p) * (q * y) == (u * y) * (p * q)
  {
  }

  lemma DividedByAll(n: nat)
    requires n % 5 == 0 && n % 17 == 0 && n % 257 == 0 && n % 65537 == 0
    ensures n % ORDER == 0
  {
    Together(5, 17, 7, 2, n);
    Together(85, 257, 127, 42, n);
    Together(21845, 65537, 32767, 10922, n);
  }

  /** The order of X: exactly the multiples of (2^32 - 1) / 3 make a power of X equal 1. */
  lemma OrderOfX(n: nat)
    ensures MulXn(1, n) == 1 <==> n % ORDER == 0
  {
    hide MulXn, Prime;
    if MulXn(1, n) == 1 {
      Primes();
      PowerWithout5();
      PowerWithout17();
      PowerWithout257();
      Power21845();
      if n % 5 != 0 { PrimePart(5, 286331153, n); }
      if n % 17 != 0 { PrimePart(17, 84215045, n); }
      if n % 257 != 0 { PrimePart(257, 5570645, n); }
      if n % 65537 != 0 { PrimePart(65537, 21845, n); }
      DividedByAll(n);
    }
    if n % ORDER == 0 {
      PowerOrder();
      PowersOf(ORDER, n / ORDER, 0);
      MulXn0(1);
    }
  }

  lemma PowersEqual(a: nat, b: nat)
    requires b <= a
    ensures MulXn(1, a) == MulXn(1, b) <==> (a - b) % ORDER == 0
  {
    hide *;
    OrderOfX(a - b);
    MulXnAdd(1, a - b, b);
    if MulXn(1, a) == MulXn(1, b) {
      var x := MulXn(1, a - b);
      MulXnLinear(x, 1, b);
      XorSame(MulXn(1, b));
      MulXnInjective(XorW(x, 1), b);
      XorEqual(x, 1);
    }
  }

  lemma XorSame(a: bv32)
    ensures XorW(a, a) == 0
  {
  }

  // ---- Window lengths ----------------------------------------------------------------------------

  lemma LengthIff(winlen: int)
    ensures MulXn(1, Reach(winlen)) == MulXn(1, 248) <==> winlen >= 1 && winlen % ORDER == 32
  {
    hide MulXn;
    if winlen < 32 {
      PowersEqual(248, Reach(winlen));
    } else {
      PowersEqual(Reach(winlen), 248);
      EightTimes(winlen - 32);
      Offset(winlen);
    }
  }

  /** 8 is a unit modulo the order, because 8 * 2^29 == 3 * ORDER + 1. */
  lemma EightTimes(d: nat)
    ensures (8 * d) % ORDER == 0 <==> d % ORDER == 0
  {
    if (8 * d) % ORDER == 0 {
      var k := Cofactor(8 * d, ORDER);
      assert d == (0x2000_0000 * k - 3 * d) * ORDER + 0;
      Residues(ORDER, 0x2000_0000 * k - 3 * d, 0);
    }
    if d % ORDER == 0 {
      var k := Cofactor(d, ORDER);
      Residues(ORDER, 8 * k, 0);
    }
  }

  lemma Offset(winlen: int)
    requires winlen >= 32
    ensures (winlen - 32) % ORDER == 0 <==> winlen % ORDER == 32
  {
    var q, r := (winlen - 32) / ORDER, (winlen - 32) % ORDER;
    if r + 32 < ORDER {
      Residues(ORDER, q, r + 32);
    } else {
      Residues(ORDER, q + 1, r + 32 - ORDER);
    }
  }

  lemma LengthOfTable(win: seq<bv32>, winlen: int)
    requires WinTab(win, Reach(winlen))
    ensures Windowed(win) <==> MulXn(1, Reach(winlen)) == MulXn(1, 248)
  {
    hide *;
    if MulXn(1, Reach(winlen)) == MulXn(1, 248) { SamePower(win, Reach(winlen)); }
    if Windowed(win) {
      WindowedAt(win, 1);
      ByteEntry(win, 1, Reach(winlen));
      WordOne();
    }
  }

  /** The tables of rabininit(winlen) make the rolling value depend on the last 32 bytes alone exactly for the
      window lengths that are 32 modulo the order of X. */
  lemma WindowLength(tab: seq<bv32>, win: seq<bv32>, winlen: int)
    requires RedTab(tab) && WinTab(win, Reach(winlen)) && |tab| == 256 == |win|
    ensures Windowed(win) <==> winlen >= 1 && winlen % ORDER == 32
    ensures (forall p: seq<Byte>, q: seq<Byte>, i: nat :: Agree(tab, win, p, q, i))
            <==> winlen >= 1 && winlen % ORDER == 32
  {
    hide *;
    LengthOfTable(win, winlen);
    LengthIff(winlen);
    FirstEntry(win, Reach(winlen));
    DependsOnWindowIff(tab, win);
  }

  lemma WordOne()
    ensures Word(1) == 1
  {
  }

  lemma SamePower(win: seq<bv32>, reach: nat)
    requires WinTab(win, reach) && MulXn(1, reach) == MulXn(1, 248)
    ensures Windowed(win)
  {
    hide MulXn, Prod, WinTab;
    ByteEntry(win, 0, reach);
    forall c: Byte ensures WindowByte(win, c) {
      ByteEntry(win, c, reach);
      ProdIs(Word(c), reach);
      ProdIs(Word(c), 248);
    }
  }

  /** A second window length that fits a C int and gives a window hash. */
  lemma OtherLength(win: seq<bv32>)
    requires WinTab(win, Reach(1431655797))
    ensures 1431655797 < 0x8000_0000 && Windowed(win)
  {
    LengthOfTable(win, 1431655797);
    LengthIff(1431655797);
  }
}
