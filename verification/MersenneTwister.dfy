/**
 * canneal's random number generator: the block-wise, in-place generator computes the recurrence of
 * MT19937 (mersenne_twister_engine, section 26.5.3.2 of ISO/IEC 14882:2011).
 *
 * The source's `uint32` is an unsigned long, 64 bits wide where the recurrence is over 32-bit words;
 * every operation is therefore written twice, and shown to agree on words whose upper half is zero.
 */
module MersenneTwister {
  // ---- Words -------------------------------------------------------------------------------------

  function Wide(w: bv32): bv64 { w as bv64 }
  function Low(u: bv64): bv32 { (u & 0xffff_ffff) as bv32 }

  function Shr1(u: bv64): bv64 { u >> 1 }
  function Shr1Word(u: bv32): bv32 { u >> 1 }
  lemma Shr1Is(u: bv32)
    ensures Shr1(u as bv64) == Shr1Word(u) as bv64
  {
  }

  function Shr11(u: bv64): bv64 { u >> 11 }
  function Shr11Word(u: bv32): bv32 { u >> 11 }
  lemma Shr11Is(u: bv32)
    ensures Shr11(u as bv64) == Shr11Word(u) as bv64
  {
  }

  function Shr18(u: bv64): bv64 { u >> 18 }
  function Shr18Word(u: bv32): bv32 { u >> 18 }
  lemma Shr18Is(u: bv32)
    ensures Shr18(u as bv64) == Shr18Word(u) as bv64
  {
  }

  function Shr30(u: bv64): bv64 { u >> 30 }
  function Shr30Word(u: bv32): bv32 { u >> 30 }
  lemma Shr30Is(u: bv32)
    ensures Shr30(u as bv64) == Shr30Word(u) as bv64
  {
  }

  function HiBit(u: bv64): bv64 { u & 0x8000_0000 }
  function HiBitWord(u: bv32): bv32 { u & 0x8000_0000 }
  lemma HiBitIs(u: bv32)
    ensures HiBit(u as bv64) == HiBitWord(u) as bv64
  {
  }

  function LoBits(u: bv64): bv64 { u & 0x7fff_ffff }
  function LoBitsWord(u: bv32): bv32 { u & 0x7fff_ffff }
  lemma LoBitsIs(u: bv32)
    ensures LoBits(u as bv64) == LoBitsWord(u) as bv64
  {
  }

  function Shl7(u: bv64): bv64 { (u << 7) & 0x9d2c_5680 }
  function Shl7Word(u: bv32): bv32 { (u << 7) & 0x9d2c_5680 }
  lemma Shl7Is(u: bv32)
    ensures Shl7(u as bv64) == Shl7Word(u) as bv64
  {
  }

  function Shl15(u: bv64): bv64 { (u << 15) & 0xefc6_0000 }
  function Shl15Word(u: bv32): bv32 { (u << 15) & 0xefc6_0000 }
  lemma Shl15Is(u: bv32)
    ensures Shl15(u as bv64) == Shl15Word(u) as bv64
  {
  }

  function Xor(u: bv64, v: bv64): bv64 { u ^ v }
  function XorWord(u: bv32, v: bv32): bv32 { u ^ v }
  lemma XorIs(u: bv32, v: bv32)
    ensures Xor(Wide(u), Wide(v)) == Wide(XorWord(u, v))
  {
  }

  function Or(u: bv64, v: bv64): bv64 { u | v }
  function OrWord(u: bv32, v: bv32): bv32 { u | v }
  lemma OrIs(u: bv32, v: bv32)
    ensures Or(Wide(u), Wide(v)) == Wide(OrWord(u, v))
  {
  }

  /** The source's branch-free mask, and the conditional of the standard. */
  function Mag(u: bv64): bv64 { (0 - (u & 1)) & 0x9908_b0df }
  function MagWord(u: bv32): bv32 { if u & 1 == 1 then 0x9908_b0df else 0 }
  lemma MagIs(u: bv32)
    ensures Mag(Wide(u)) == Wide(MagWord(u))
  {
  }

  function MulAdd(u: bv64, c: bv32): bv64 { (1812433253 * u + (c as bv64)) & 0xffff_ffff }
  function MulAddWord(u: bv32, c: bv32): bv32 { 1812433253 * u + c }
  lemma MulAddIs(u: bv32, c: bv32)
    ensures MulAdd(u as bv64, c) == MulAddWord(u, c) as bv64
  {
  }

  lemma WideIs(u: bv32)
    ensures Wide(u) == u as bv64
  {
  }

  lemma MulAddWide(u: bv32, c: bv32)
    ensures MulAdd(Wide(u), c) == Wide(MulAddWord(u, c))
  {
    hide *;
    calc {
      MulAdd(Wide(u), c);
      { WideIs(u); }
      MulAdd(u as bv64, c);
      { MulAddIs(u, c); }
      MulAddWord(u, c) as bv64;
      { WideIs(MulAddWord(u, c)); }
      Wide(MulAddWord(u, c));
    }
  }

  lemma LowWide(u: bv32)
    ensures Low(Wide(u)) == u
  {
  }

  // ---- The recurrence ----------------------------------------------------------------------------

  /** x is the word 624 back, y the one after x, m the one 397 after x. */
  function Step(m: bv32, x: bv32, y: bv32): bv32 {
    XorWord(XorWord(m, Shr1Word(OrWord(HiBitWord(x), LoBitsWord(y)))), MagWord(y))
  }

  /** The words of the sequence, of which the first 624 are given. */
  ghost function Word(first: seq<bv32>, k: nat): bv32
    requires |first| == 624
  {
    if k < 624 then first[k]
    else Step(Word(first, k - 624 + 397), Word(first, k - 624), Word(first, k - 624 + 1))
  }

  /** The recurrence in bits: the upper bit of one word and the lower ones of the next, shifted and twisted. */
  lemma Recurrence(first: seq<bv32>, k: nat)
    requires |first| == 624
    ensures Word(first, k + 624)
         == Word(first, k + 397)
            ^ (((Word(first, k) & 0x8000_0000) | (Word(first, k + 1) & 0x7fff_ffff)) >> 1)
            ^ (if Word(first, k + 1) & 1 == 1 then 0x9908_b0df else 0)
  {
  }

  function Temper(w: bv32): bv32 {
    var a := XorWord(w, Shr11Word(w));
    var b := XorWord(a, Shl7Word(a));
    var c := XorWord(b, Shl15Word(b));
    XorWord(c, Shr18Word(c))
  }

  /** Tempering loses nothing: different words stay different. */
  lemma TemperInjective(v: bv32, w: bv32)
    requires Temper(v) == Temper(w)
    ensures v == w
  {
    var a, b := XorWord(v, Shr11Word(v)), XorWord(w, Shr11Word(w));
    var c, d := XorWord(a, Shl7Word(a)), XorWord(b, Shl7Word(b));
    var e, f := XorWord(c, Shl15Word(c)), XorWord(d, Shl15Word(d));
    Shr18Injective(e, f);
    Shl15Injective(c, d);
    Shl7Injective(a, b);
    Shr11Injective(v, w);
  }

  lemma Shr18Injective(v: bv32, w: bv32)
    requires XorWord(v, Shr18Word(v)) == XorWord(w, Shr18Word(w))
    ensures v == w
  {
    UndoShr18(v);
    UndoShr18(w);
    hide *;
  }

  lemma UndoShr18(v: bv32)
    ensures var x := XorWord(v, Shr18Word(v)); XorWord(x, Shr18Word(x)) == v
  {
    Shr18Xor(v, Shr18Word(v));
    XorTwice(v, Shr18Word(v));
    hide *;
  }

  lemma Shr18Xor(a: bv32, b: bv32)
    ensures Shr18Word(XorWord(a, b)) == XorWord(Shr18Word(a), Shr18Word(b)) && Shr18Word(Shr18Word(a)) == 0
  {
  }

  lemma XorTwice(a: bv32, b: bv32)
    ensures XorWord(XorWord(a, b), XorWord(b, 0)) == a
  {
  }

  lemma Shl15Injective(v: bv32, w: bv32)
    requires XorWord(v, Shl15Word(v)) == XorWord(w, Shl15Word(w))
    ensures v == w
  {
  }

  lemma Shl7Injective(v: bv32, w: bv32)
    requires XorWord(v, Shl7Word(v)) == XorWord(w, Shl7Word(w))
    ensures v == w
  {
  }

  lemma Shr11Injective(v: bv32, w: bv32)
    requires XorWord(v, Shr11Word(v)) == XorWord(w, Shr11Word(w))
    ensures v == w
  {
    UndoShr11(v);
    UndoShr11(w);
    hide *;
  }

  lemma UndoShr11(v: bv32)
    ensures var x := XorWord(v, Shr11Word(v)); XorWord(XorWord(x, Shr11Word(x)), Shr11Word(Shr11Word(x))) == v
  {
    var u := Shr11Word(v);
    Shr11Xor(v, u);
    Shr11Xor(u, Shr11Word(u));
    XorThrice(v, u, Shr11Word(u));
    hide *;
  }

  lemma Shr11Xor(a: bv32, b: bv32)
    ensures Shr11Word(XorWord(a, b)) == XorWord(Shr11Word(a), Shr11Word(b))
    ensures Shr11Word(Shr11Word(Shr11Word(a))) == 0
  {
  }

  lemma XorThrice(a: bv32, b: bv32, d: bv32)
    ensures XorWord(XorWord(XorWord(a, b), XorWord(b, d)), XorWord(d, 0)) == a
  {
    XorMiddle(a, b, d);
    XorTwice(a, d);
    hide *;
  }

  lemma XorMiddle(a: bv32, b: bv32, d: bv32)
    ensures XorWord(XorWord(a, b), XorWord(b, d)) == XorWord(a, d)
  {
  }

  /** Words that show every bit of the two masks. */
  lemma TemperedWords()
    ensures Temper(0xffe0_03ff) == 0xa655_80ea && Temper(0xf2c5_b1c9) == 0x1039_fbf1
    ensures Temper(1) == 0x0040_0091 && Temper(0x8000_0000) == 0x8810_2204
  {
  }

  lemma SteppedWords()
    ensures Step(0, 0xffff_ffff, 0) == 0x4000_0000 && Step(0, 0, 0xffff_ffff) == 0xa6f7_4f20
    ensures Step(0x1234_5678, 0x8000_0000, 1) == 0xcb3c_e6a7
  {
  }

  /** The machine word that counts to k. */
  ghost function Count(k: nat): bv32 {
    if k == 0 then 0 else Count(k - 1) + 1
  }

  /** The words that a 32-bit seed stands for. */
  ghost function SeedWord(seed: bv32, k: nat): bv32 {
    if k == 0 then seed
    else
      var w := SeedWord(seed, k - 1);
      MulAddWord(XorWord(w, Shr30Word(w)), Count(k))
  }

  /** The first words of the seed that the standard uses by default. */
  lemma DefaultSeed()
    ensures SeedWord(5489, 1) == 1301868182 && SeedWord(5489, 2) == 2938499221
  {
    assert Count(1) == 1 && Count(2) == 2;
    assert SeedWord(5489, 1) == MulAddWord(XorWord(5489, Shr30Word(5489)), Count(1));
  }

  ghost function SeedWords(seed: bv32): (s: seq<bv32>)
    ensures |s| == 624 && forall k :: 0 <= k < 624 ==> s[k] == SeedWord(seed, k)
  {
    seq(624, k requires 0 <= k < 624 => SeedWord(seed, k))
  }

  /** A sequence started from 624 consecutive words of another goes on as that one does. */
  lemma {:induction false} Resumes(first: seq<bv32>, base: nat, later: seq<bv32>, k: nat)
    requires |first| == |later| == 624
    requires forall i :: 0 <= i < 624 ==> later[i] == Word(first, base + i)
    ensures Word(later, k) == Word(first, base + k)
  {
    hide Step;
    if k >= 624 {
      Resumes(first, base, later, k - 624 + 397);
      Resumes(first, base, later, k - 624);
      Resumes(first, base, later, k - 624 + 1);
    }
  }

  // ---- The generator's operations ----------------------------------------------------------------

  function MixBits(u: bv64, v: bv64): bv64 { Or(HiBit(u), LoBits(v)) }

  function Twist(m: bv64, s0: bv64, s1: bv64): bv64 { Xor(Xor(m, Shr1(MixBits(s0, s1))), Mag(s1)) }

  /** Twisting is one step of the recurrence. */
  lemma TwistIsStep(m: bv32, x: bv32, y: bv32)
    ensures Twist(Wide(m), Wide(x), Wide(y)) == Wide(Step(m, x, y))
  {
    hide Wide, Mag, MagWord, Xor, XorWord, Or, OrWord, Shr1, Shr1Word, HiBit, HiBitWord, LoBits, LoBitsWord;
    HiBitIs(x);
    WideIs(x);
    WideIs(HiBitWord(x));
    LoBitsIs(y);
    WideIs(y);
    WideIs(LoBitsWord(y));
    OrIs(HiBitWord(x), LoBitsWord(y));
    var mixed := OrWord(HiBitWord(x), LoBitsWord(y));
    Shr1Is(mixed);
    WideIs(mixed);
    WideIs(Shr1Word(mixed));
    XorIs(m, Shr1Word(mixed));
    MagIs(y);
    XorIs(XorWord(m, Shr1Word(mixed)), MagWord(y));
  }

  function Tempered(w: bv64): bv64 {
    var a := Xor(w, Shr11(w));
    var b := Xor(a, Shl7(a));
    var c := Xor(b, Shl15(b));
    Xor(c, Shr18(c))
  }

  lemma TemperedIs(w: bv32)
    ensures Tempered(Wide(w)) == Wide(Temper(w))
  {
    hide Wide, Xor, XorWord, Shr11, Shr11Word, Shr18, Shr18Word, Shl7, Shl7Word, Shl15, Shl15Word;
    Shr11Is(w);
    WideIs(w);
    WideIs(Shr11Word(w));
    XorIs(w, Shr11Word(w));
    var a := XorWord(w, Shr11Word(w));
    Shl7Is(a);
    WideIs(a);
    WideIs(Shl7Word(a));
    XorIs(a, Shl7Word(a));
    var b := XorWord(a, Shl7Word(a));
    Shl15Is(b);
    WideIs(b);
    WideIs(Shl15Word(b));
    XorIs(b, Shl15Word(b));
    var c := XorWord(b, Shl15Word(b));
    Shr18Is(c);
    WideIs(c);
    WideIs(Shr18Word(c));
    XorIs(c, Shr18Word(c));
  }

  lemma TemperedStages(w: bv64)
    ensures var a := Xor(w, Shr11(w));
            var b := Xor(a, Shl7(a));
            var c := Xor(b, Shl15(b));
            Tempered(w) == Xor(c, Shr18(c))
  {
    hide Xor, Shr11, Shr18, Shl7, Shl15;
  }

  function SeedStep(r: bv64, counter: bv32): bv64 { MulAdd(Xor(r, Shr30(r)), counter) }

  lemma NextSeed(seed: bv32, i: nat)
    requires i > 0
    ensures SeedStep(Wide(SeedWord(seed, i - 1)), Count(i)) == Wide(SeedWord(seed, i))
    ensures Count(i + 1) == Count(i) + 1
  {
    hide Wide, Xor, XorWord, Shr30, Shr30Word, MulAdd, MulAddWord;
    var w := SeedWord(seed, i - 1);
    Shr30Is(w);
    WideIs(w);
    WideIs(Shr30Word(w));
    XorIs(w, Shr30Word(w));
    var x := XorWord(w, Shr30Word(w));
    MulAddWide(x, Count(i));
  }

  lemma FirstSeed(seed: bv64)
    ensures (seed & 0xffff_ffff) == Wide(SeedWord(Low(seed), 0))
    ensures Count(1) == 1
  {
  }

  // ---- The state ---------------------------------------------------------------------------------

  /** The state holds the 624 words of the sequence from word `base` on. */
  ghost predicate Holds(first: seq<bv32>, s: seq<bv64>, base: nat) {
    |first| == |s| == 624 && forall k :: 0 <= k < 624 ==> s[k] == Wide(Word(first, base + k))
  }

  /** Of those words, the first p have been replaced by the ones 624 further on. */
  ghost predicate Mixed(first: seq<bv32>, s: seq<bv64>, base: nat, p: nat) {
    && |first| == |s| == 624
    && forall k :: 0 <= k < 624 ==> s[k] == Wide(Word(first, Number(base, p, k)))
  }

  ghost function Number(base: nat, p: nat, k: nat): nat {
    if k < p then base + 624 + k else base + k
  }

  lemma MixedIsHolds(first: seq<bv32>, s: seq<bv64>, base: nat)
    ensures Mixed(first, s, base, 0) <==> Holds(first, s, base)
    ensures Mixed(first, s, base, 624) <==> Holds(first, s, base + 624)
  {
    hide Wide, Word;
    if Mixed(first, s, base, 624) {
      forall k | 0 <= k < 624 ensures s[k] == Wide(Word(first, base + 624 + k)) {
        assert Number(base, 624, k) == base + 624 + k;
      }
    }
    if Holds(first, s, base + 624) {
      forall k | 0 <= k < 624 ensures s[k] == Wide(Word(first, Number(base, 624, k))) {
        assert Number(base, 624, k) == base + 624 + k;
      }
    }
  }

  lemma WordStep(first: seq<bv32>, x: nat)
    requires |first| == 624
    ensures Word(first, x + 624) == Step(Word(first, x + 397), Word(first, x), Word(first, x + 1))
  {
    hide Step;
  }

  /** Twisting slot p from slots m, p and n, whichever of them have been replaced already. */
  lemma MixOne(first: seq<bv32>, s: seq<bv64>, base: nat, p: nat, m: nat, n: nat)
    requires Mixed(first, s, base, p) && p < 624 && m < 624 && n < 624
    requires m == (if p < 227 then p + 397 else p - 227) && n == (if p < 623 then p + 1 else 0)
    ensures Mixed(first, s[p := Twist(s[m], s[p], s[n])], base, p + 1)
  {
    hide Wide, Twist, Step, Word;
    var x := base + p;
    assert Number(base, p, m) == x + 397 && Number(base, p, p) == x && Number(base, p, n) == x + 1;
    TwistIsStep(Word(first, x + 397), Word(first, x), Word(first, x + 1));
    WordStep(first, x);
    var t := s[p := Twist(s[m], s[p], s[n])];
    forall k | 0 <= k < 624 ensures t[k] == Wide(Word(first, Number(base, p + 1, k))) {
      assert s[k] == Wide(Word(first, Number(base, p, k)));
    }
  }

  lemma HoldsAt(first: seq<bv32>, s: seq<bv64>, base: nat, k: nat)
    requires Holds(first, s, base) && k < 624
    ensures |s| == 624 && s[k] == Wide(Word(first, base + k))
  {
    hide Wide, Word;
  }

  lemma FirstHolds(first: seq<bv32>, s: seq<bv64>)
    requires |first| == |s| == 624 && forall k :: 0 <= k < 624 ==> s[k] == Wide(first[k])
    ensures Holds(first, s, 0)
  {
    hide Wide, Step;
  }

  /** The words that an array of 64-bit words stands for. */
  ghost function Lows(s: seq<bv64>): (r: seq<bv32>)
    ensures |r| == |s| && forall k :: 0 <= k < |s| ==> r[k] == Low(s[k])
  {
    seq(|s|, k requires 0 <= k < |s| => Low(s[k]))
  }

  /** Are these words of a generator, with nothing in the upper halves? */
  ghost predicate Narrow(s: seq<bv64>) {
    forall k :: 0 <= k < |s| ==> s[k] == Wide(Low(s[k]))
  }

  lemma HoldsNarrow(first: seq<bv32>, s: seq<bv64>, base: nat)
    requires Holds(first, s, base)
    ensures Narrow(s) && forall i :: 0 <= i < 624 ==> Lows(s)[i] == Word(first, base + i)
  {
    hide Wide, Low, Word;
    forall i | 0 <= i < 624 ensures Low(s[i]) == Word(first, base + i) {
      LowWide(Word(first, base + i));
    }
  }

  /** The count that a word holds. */
  function AsCount(b: bv64): nat {
    b as int
  }

  function AsWord(n: nat): bv64
    requires n <= 624
  {
    n as bv64
  }

  class MTRand {
    const state: array<bv64>
    var pNext: nat
    var left: nat
    /** The first 624 words of the sequence that is being drawn. */
    ghost var first: seq<bv32>
    /** The number of the word that the next draw returns. */
    ghost var at: nat

    ghost predicate Valid()
      reads this, state
    {
      && left <= 624 && pNext == 624 - left && pNext <= at
      && state.Length == 624 && Holds(first, state[..], at - pNext)
    }

    /** The generator of a 32-bit seed: the first draw is word 624. */
    constructor (seed: bv64)
      ensures Valid() && fresh(state) && at == 624 && first == SeedWords(Low(seed))
    {
      state := new bv64[624];
      pNext, left := 0, 0;
      new;
      first := SeedWords(Low(seed));
      Initialize(seed);
      Reload(0);
      at := 624;
    }

    method Initialize(seed: bv64)
      requires state.Length == 624
      modifies state
      ensures Holds(SeedWords(Low(seed)), state[..], 0)
    {
      hide *;
      FirstSeed(seed);
      state[0] := seed & 0xffff_ffff;
      var i, counter: bv32 := 1, 1;
      while i < 624
        invariant 1 <= i <= 624 && counter == Count(i)
        invariant forall k :: 0 <= k < i ==> state[k] == Wide(SeedWord(Low(seed), k))
      {
        var r := state[i - 1];
        state[i] := SeedStep(r, counter);
        NextSeed(Low(seed), i);
        i, counter := i + 1, counter + 1;
      }
      FirstHolds(SeedWords(Low(seed)), state[..]);
    }

    /** Replace the 624 words from `base` on by the 624 after them, in place. */
    method Reload(ghost base: nat)
      requires state.Length == 624 && Holds(first, state[..], base)
      modifies state, this`pNext, this`left
      ensures Holds(first, state[..], base + 624) && left == 624 && pNext == 0
    {
      hide *;
      MixedIsHolds(first, state[..], base);
      var p := 0;
      while p < 624 - 397
        invariant 0 <= p <= 227 && Mixed(first, state[..], base, p)
      {
        MixOne(first, state[..], base, p, p + 397, p + 1);
        ghost var s := state[..];
        state[p] := Twist(state[p + 397], state[p], state[p + 1]);
        assert state[..] == s[p := Twist(s[p + 397], s[p], s[p + 1])];
        p := p + 1;
      }
      while p < 623
        invariant 227 <= p <= 623 && Mixed(first, state[..], base, p)
      {
        MixOne(first, state[..], base, p, p + 397 - 624, p + 1);
        ghost var s := state[..];
        state[p] := Twist(state[p + 397 - 624], state[p], state[p + 1]);
        assert state[..] == s[p := Twist(s[p + 397 - 624], s[p], s[p + 1])];
        p := p + 1;
      }
      MixOne(first, state[..], base, p, p + 397 - 624, 0);
      ghost var s := state[..];
      state[p] := Twist(state[p + 397 - 624], state[p], state[0]);
      assert state[..] == s[p := Twist(s[p + 397 - 624], s[p], s[0])];
      MixedIsHolds(first, state[..], base);
      left, pNext := 624, 0;
    }

    /** Draw a number: the next word of the sequence, tempered. */
    method RandInt() returns (r: bv64)
      requires Valid()
      modifies this`pNext, this`left, this`at, state
      ensures Valid() && first == old(first) && at == old(at) + 1
      ensures |first| == 624 && r == Wide(Temper(Word(first, old(at))))
    {
      hide Wide, Word, Temper, Tempered, Holds, Xor, XorWord, Shr11,
          Shr11Word, Shr18, Shr18Word, Shl7, Shl7Word, Shl15, Shl15Word;
      ghost var base := at - pNext;
      if left == 0 {
        Reload(base);
        base := base + 624;
      }
      HoldsLength(first, state[..], base);
      HoldsAt(first, state[..], base, pNext);
      left := left - 1;
      var s1 := state[pNext];
      pNext := pNext + 1;
      TemperedIs(Word(first, at));
      at := at + 1;
      s1 := Xor(s1, Shr11(s1));
      s1 := Xor(s1, Shl7(s1));
      s1 := Xor(s1, Shl15(s1));
      r := Xor(s1, Shr18(s1));
      TemperedStages(state[pNext - 1]);
    }

    /** Copy the state out; how many words are left goes into the last entry. */
    method Save(saveArray: array<bv64>)
      requires Valid() && saveArray.Length == 625 && saveArray != state
      modifies saveArray
      ensures Valid() && saveArray[..624] == state[..] && AsCount(saveArray[624]) == left
      ensures Narrow(saveArray[..624])
      ensures forall k :: Resumed(Lows(saveArray[..624]), pNext, first, at, k)
    {
      hide *;
      LeftIs();
      CountWord(left);
      CopyWords(state, saveArray);
      saveArray[624] := AsWord(left);
      assert saveArray[..624] == state[..];
      SavedResumes(first, saveArray[..624], at, pNext);
    }

    lemma LeftIs()
      requires Valid()
      ensures state.Length == 624 && 0 <= left <= 624 && pNext == 624 - left && pNext <= at
      ensures Holds(first, state[..], at - pNext)
    {
    }

    /**
     * Go on from saved words.  Whatever the words are, they and the number left become the state; if nothing is in
     * their upper halves, as in what a save writes, they are the next words of the sequence they begin.
     */
    method Load(loadArray: array<bv64>)
      requires state.Length == 624 && loadArray.Length == 625 && loadArray != state && AsCount(loadArray[624]) <= 624
      modifies this, state
      ensures state[..] == loadArray[..624] && left == AsCount(loadArray[624]) && pNext == 624 - left
      ensures Narrow(loadArray[..624]) ==> Valid() && first == Lows(loadArray[..624]) && at == pNext
    {
      hide *;
      CopyWords(loadArray, state);
      left := AsCount(loadArray[624]);
      pNext := 624 - left;
      first := Lows(loadArray[..624]);
      at := pNext;
      assert state[..] == loadArray[..624];
      LoadedIs();
    }

    lemma LoadedIs()
      requires 0 <= left <= 624 && pNext == 624 - left && at == pNext
      requires state.Length == 624 && first == Lows(state[..])
      ensures Narrow(state[..]) ==> Valid()
    {
      hide Holds, Lows, Narrow;
      if Narrow(state[..]) { NarrowHolds(state[..]); }
    }
  }

  lemma NarrowHolds(s: seq<bv64>)
    requires |s| == 624 && Narrow(s)
    ensures Holds(Lows(s), s, 0)
  {
    hide Wide, Low, Holds;
    FirstHolds(Lows(s), s);
  }

  method CopyWords(from: array<bv64>, to: array<bv64>)
    requires from.Length >= 624 && to.Length >= 624 && from != to
    modifies to
    ensures to[..624] == from[..624] && to[624..] == old(to[624..])
  {
    var i := 0;
    while i < 624
      invariant 0 <= i <= 624 && to[..i] == from[..i] && to[624..] == old(to[624..])
    {
      to[i] := from[i];
      i := i + 1;
    }
  }

  lemma NextCount(b: bv64)
    requires b < 1000
    ensures (b + 1) as int == (b as int) + 1
  {
  }

  lemma SmallCount(b: bv64)
    requires b as int < 1000
    ensures b < 1000
  {
  }

  /** The word that counts to n. */
  ghost function LeftWord(n: nat): (b: bv64)
    requires n <= 624
    ensures b as int == n
  {
    if n == 0 then 0
    else
      SmallCount(LeftWord(n - 1));
      NextCount(LeftWord(n - 1));
      LeftWord(n - 1) + 1
  }

  lemma LeftFits(n: nat)
    requires n <= 624
    ensures (n as bv64) as int == n
  {
    var b := LeftWord(n);
    assert (b as int) as bv64 == b;
  }

  lemma CountWord(n: nat)
    requires n <= 624
    ensures AsCount(AsWord(n)) == n
  {
    LeftFits(n);
  }

  /** Word k from `at` on of one sequence is word k from `from` on of the other. */
  ghost predicate Resumed(later: seq<bv32>, from: nat, first: seq<bv32>, at: nat, k: nat) {
    |later| == |first| == 624 && Word(later, from + k) == Word(first, at + k)
  }

  lemma SavedResumes(first: seq<bv32>, s: seq<bv64>, at: nat, pNext: nat)
    requires pNext <= at && Holds(first, s, at - pNext)
    ensures Narrow(s) && forall k :: Resumed(Lows(s), pNext, first, at, k)
  {
    hide Wide, Low, Word, Holds, Lows, Narrow;
    HoldsNarrow(first, s, at - pNext);
    HoldsLength(first, s, at - pNext);
    forall k: nat ensures Resumed(Lows(s), pNext, first, at, k) {
      Resumes(first, at - pNext, Lows(s), pNext + k);
    }
  }

  lemma HoldsLength(first: seq<bv32>, s: seq<bv64>, base: nat)
    requires Holds(first, s, base)
    ensures |first| == |s| == 624
  {
  }
}
