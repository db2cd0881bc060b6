/** The tables of the rolling hash, the hash itself, and segmentation. */
module RabinSeg {
  import opened Rabin

  // ---- One byte at a time ------------------------------------------------------------------------

  function Shl8(h: bv32): bv32 {
    h << 8
  }

  function Index(h: bv32): (i: nat)
    ensures i < 256
  {
    (h >> 24) as int
  }

  function Push(h: bv32, c: Byte): bv32 {
    (h << 8) | (c as bv32)
  }

  /** One step of the table-driven hash. */
  function Feed(tab: seq<bv32>, h: bv32, c: Byte): bv32
    requires |tab| == 256
  {
    XorW(Push(h, c), tab[Index(h)])
  }

  ghost predicate Entry(win: seq<bv32>, i: bv32, reach: nat)
    requires |win| == 256 && i < 256
  {
    win[i as int] == MulXn(i, reach)
  }

  /** Entry i is i * X^reach. */
  ghost predicate WinTab(win: seq<bv32>, reach: nat) {
    |win| == 256 && forall i: bv32 :: i < 256 ==> Entry(win, i, reach)
  }

  /** The table that removes the byte pushed out of a word. */
  ghost predicate RedTab(tab: seq<bv32>) {
    WinTab(tab, 32)
  }

  lemma NoTop(x: bv32)
    requires x < 0x8000_0000
    ensures MulX(x) == Shl(x)
  {
  }

  lemma ShlBound(x: bv32, b: bv32)
    requires x < b && b <= 0x4000_0000
    ensures Shl(x) < Shl(b)
  {
  }

  lemma NoCarry(x: bv32, b: bv32)
    requires x < b && b <= 0x4000_0000
    ensures MulX(x) == Shl(x) && MulX(x) < Shl(b)
  {
    hide *;
    NoTop(x);
    ShlBound(x, b);
  }

  lemma EightShifts(x: bv32)
    ensures Shl(Shl(Shl(Shl(Shl(Shl(Shl(Shl(x)))))))) == Shl8(x)
  {
  }

  lemma Literals()
    ensures Shl(0x100_0000) == 0x200_0000 && Shl(0x200_0000) == 0x400_0000 && Shl(0x400_0000) == 0x800_0000
    ensures Shl(0x800_0000) == 0x1000_0000 && Shl(0x1000_0000) == 0x2000_0000 && Shl(0x2000_0000) == 0x4000_0000
    ensures Shl(0x4000_0000) == 0x8000_0000
  {
  }

  /** A word with its top byte clear is just shifted. */
  lemma NoCarry8(x: bv32)
    requires x < 0x100_0000
    ensures MulXn(x, 8) == Shl8(x)
  {
    hide *;
    Literals();
    MulXn0(x);
    MulXnIs(x, 1);
    MulXnIs(x, 2);
    MulXnIs(x, 3);
    MulXnIs(x, 4);
    MulXnIs(x, 5);
    MulXnIs(x, 6);
    MulXnIs(x, 7);
    MulXnIs(x, 8);
    NoCarry(x, 0x100_0000);
    NoCarry(MulXn(x, 1), 0x200_0000);
    NoCarry(MulXn(x, 2), 0x400_0000);
    NoCarry(MulXn(x, 3), 0x800_0000);
    NoCarry(MulXn(x, 4), 0x1000_0000);
    NoCarry(MulXn(x, 5), 0x2000_0000);
    NoCarry(MulXn(x, 6), 0x4000_0000);
    NoTop(MulXn(x, 7));
    EightShifts(x);
  }

  function High(h: bv32): bv32 { h >> 24 }

  function Rest(h: bv32): bv32 { h & 0xff_ffff }

  lemma Split(h: bv32)
    ensures Rest(h) < 0x100_0000 && High(h) < 0x100_0000
    ensures XorW(Shl8(Shl8(Shl8(High(h)))), Rest(h)) == h
    ensures Shl8(High(h)) < 0x100_0000 && Shl8(Shl8(High(h))) < 0x100_0000
  {
  }

  lemma PushIsXor(h: bv32, c: Byte)
    ensures Push(h, c) == XorW(Shl8(Rest(h)), Word(c))
  {
  }

  lemma RedEntryOf(tab: seq<bv32>, h: bv32)
    requires RedTab(tab)
    ensures tab[Index(h)] == MulXn(High(h), 32)
  {
    assert High(h) < 256;
    assert Entry(tab, High(h), 32);
  }

  lemma FeedIs(tab: seq<bv32>, h: bv32, c: Byte)
    requires |tab| == 256
    ensures Feed(tab, h, c) == XorW(Push(h, c), tab[Index(h)])
  {
  }

  lemma HighShift(t: bv32)
    requires t < 0x100_0000 && Shl8(t) < 0x100_0000 && Shl8(Shl8(t)) < 0x100_0000
    ensures MulXn(Shl8(Shl8(Shl8(t))), 8) == MulXn(t, 32)
  {
    hide *;
    NoCarry8(t);
    NoCarry8(Shl8(t));
    NoCarry8(Shl8(Shl8(t)));
    MulXnAdd(t, 8, 8);
    MulXnAdd(t, 16, 8);
    MulXnAdd(t, 24, 8);
  }

  lemma HighAndRest(h: bv32)
    ensures MulXn(h, 8) == XorW(MulXn(High(h), 32), Shl8(Rest(h)))
  {
    hide *;
    Split(h);
    HighShift(High(h));
    NoCarry8(Rest(h));
    MulXnLinear(Shl8(Shl8(Shl8(High(h)))), Rest(h), 8);
  }

  /** One table step multiplies by X^8 and adds the byte. */
  lemma FeedIsMul(tab: seq<bv32>, h: bv32, c: Byte)
    requires RedTab(tab)
    ensures |tab| == 256 && Feed(tab, h, c) == XorW(MulXn(h, 8), Word(c))
  {
    assert |tab| == 256;
    hide *;
    FeedIs(tab, h, c);
    RedEntryOf(tab, h);
    PushIsXor(h, c);
    HighAndRest(h);
    XorLaws(Shl8(Rest(h)), Word(c), MulXn(High(h), 32));
    XorComm(Shl8(Rest(h)), MulXn(High(h), 32));
  }

  // ---- Building the tables -----------------------------------------------------------------------

  /** 32 single steps. */
  method FpReduce(x: bv32) returns (r: bv32)
    ensures r == MulXn(x, 32)
  {
    hide *;
    r := x;
    MulXn0(x);
    var i := 32;
    while i != 0
      invariant 0 <= i <= 32 && r == MulXn(x, 32 - i)
    {
      MulXIs(r);
      MulXnIs(x, 33 - i);
      r := if Top(r) then XorW(Shl(r), IRRPOLY) else Shl(r);
      i := i - 1;
    }
  }

  /** The number of the table entry for i. */
  ghost function Place(i: bv32): int {
    i as int
  }

  lemma PlacesApart(i: bv32, j: bv32)
    requires i != j
    ensures Place(i) != Place(j)
  {
    WordOfInt(i);
    WordOfInt(j);
  }

  lemma Updated(win: seq<bv32>, a: int, b: int, v: bv32)
    requires |win| == 256 && 0 <= a < 256 && 0 <= b < 256
    ensures win[a := v][a] == v && (a != b ==> win[a := v][b] == win[b])
  {
  }

  lemma EntryIs(win: seq<bv32>, i: bv32, reach: nat)
    requires |win| == 256 && i < 256
    ensures 0 <= Place(i) < 256 && (Entry(win, i, reach) <==> win[Place(i)] == MulXn(i, reach))
  {
  }

  lemma EntryKept(win: seq<bv32>, i: bv32, j: bv32, reach: nat)
    requires |win| == 256 && i < 256 && j < 256 && 0 <= Place(i) < 256
    requires j != i ==> Entry(win, j, reach)
    ensures Entry(win[Place(i) := MulXn(i, reach)], j, reach)
  {
    hide *;
    var win' := win[Place(i) := MulXn(i, reach)];
    assert |win'| == 256;
    EntryIs(win, j, reach);
    EntryIs(win', j, reach);
    if j != i {
      PlacesApart(i, j);
      Updated(win, Place(i), Place(j), MulXn(i, reach));
    } else {
      Updated(win, Place(i), Place(i), MulXn(i, reach));
    }
  }

  lemma EntriesKept(win: seq<bv32>, win': seq<bv32>, i: bv32, reach: nat)
    requires |win| == 256 == |win'| && i < 256 && 0 <= Place(i) < 256 && win' == win[Place(i) := MulXn(i, reach)]
    requires forall j: bv32 :: j < i ==> Entry(win, j, reach)
    ensures forall j: bv32 :: j < i + 1 ==> Entry(win', j, reach)
  {
    hide *;
    forall j: bv32 | j < i + 1 ensures Entry(win', j, reach) {
      EntryKept(win, i, j, reach);
    }
  }

  lemma LastEntry(i: bv32)
    requires i < 256
    ensures Place(i) == i as int && (i as int) < 256 && i + 1 <= 256 && 256 - (i + 1) < 256 - i
  {
  }

  method FpMkRedTab(tab: array<bv32>)
    requires tab.Length == 256
    modifies tab
    ensures RedTab(tab[..])
  {
    var i: bv32 := 0;
    while i < 256
      invariant i <= 256 && forall j: bv32 :: j < i ==> Entry(tab[..], j, 32)
      decreases 256 - i
    {
      var r := FpReduce(i);
      ghost var before := tab[..];
      LastEntry(i);
      tab[i as int] := r;
      assert tab[..] == before[i as int := r];
      EntriesKept(before, tab[..], i, 32);
      i := i + 1;
    }
  }

  /** How far a window table of length winlen reaches back. */
  function Reach(winlen: int): nat {
    if winlen <= 1 then 0 else 8 * (winlen - 1)
  }

  lemma ReachNext(i: nat)
    requires 1 <= i
    ensures Reach(i) + 8 == Reach(i + 1)
  {
  }

  method FpWinReduce(winlen: int, x: bv32, tab: array<bv32>) returns (winval: bv32)
    requires tab.Length == 256 && RedTab(tab[..]) && x < 256
    ensures winval == MulXn(x, Reach(winlen))
  {
    hide *;
    winval := 0;
    FirstByte(tab[..], x);
    winval := XorW(OrShift(winval, x), tab[Index(winval)]);
    assert winval == x;
    MulXn0(x);
    assert Reach(1) == 0 by { ReachShort(1); }
    var i := 1;
    while i < winlen
      invariant 1 <= i && (i <= winlen || i == 1)
      invariant winval == MulXn(x, Reach(i))
    {
      FeedIsMul(tab[..], winval, 0);
      FeedIs(tab[..], winval, 0);
      PushZero(winval);
      XorZero(MulXn(winval, 8));
      MulXnAdd(x, Reach(i), 8);
      ReachNext(i);
      winval := XorW(Shl8(winval), tab[Index(winval)]);
      i := i + 1;
    }
    if winlen < 1 { ReachShort(winlen); }
  }

  lemma ReachShort(winlen: int)
    requires winlen <= 1
    ensures Reach(winlen) == 0
  {
  }

  function OrShift(w: bv32, x: bv32): bv32 {
    (w << 8) | x
  }

  lemma PushZero(w: bv32)
    ensures Push(w, 0) == Shl8(w) && Word(0) == 0
  {
  }

  lemma FirstByte(tab: seq<bv32>, x: bv32)
    requires RedTab(tab)
    ensures |tab| == 256 && XorW(OrShift(0, x), tab[Index(0)]) == x
  {
    assert Entry(tab, 0, 32);
    MulXnZero(32);
    assert Index(0) == 0;
  }

  method FpMkWinRedTab(winlen: int, tab: array<bv32>, win: array<bv32>)
    requires tab.Length == 256 && win.Length == 256 && tab != win && RedTab(tab[..])
    modifies win
    ensures WinTab(win[..], Reach(winlen))
  {
    var i: bv32 := 0;
    while i < 256
      invariant i <= 256 && forall j: bv32 :: j < i ==> Entry(win[..], j, Reach(winlen))
      invariant RedTab(tab[..])
      decreases 256 - i
    {
      var r := FpWinReduce(winlen, i, tab);
      ghost var before := win[..];
      LastEntry(i);
      win[i as int] := r;
      assert win[..] == before[i as int := r];
      EntriesKept(before, win[..], i, Reach(winlen));
      i := i + 1;
    }
  }

  method RabinInit(winlen: int, tab: array<bv32>, win: array<bv32>)
    requires tab.Length == 256 && win.Length == 256 && tab != win
    modifies tab, win
    ensures RedTab(tab[..]) && WinTab(win[..], Reach(winlen))
  {
    FpMkRedTab(tab);
    FpMkWinRedTab(winlen, tab, win);
  }

  // ---- The rolling hash --------------------------------------------------------------------------

  /** The value h of rabinseg once i bytes are in. */
  function Rolling(tab: seq<bv32>, win: seq<bv32>, p: seq<Byte>, i: nat): bv32
    requires |tab| == 256 == |win| && i <= |p|
  {
    if i == 0 then 0
    else if i <= NWINDOW then Feed(tab, Rolling(tab, win, p, i - 1), p[i - 1])
    else Feed(tab, XorW(Rolling(tab, win, p, i - 1), win[p[i - 1 - NWINDOW] as int]), p[i - 1])
  }

  /** The last 32 of the first i bytes, or all of them if there are fewer. */
  function Window(p: seq<Byte>, i: nat): seq<Byte>
    requires i <= |p|
  {
    if i <= NWINDOW then p[..i] else p[i - NWINDOW..i]
  }

  /** The window theorem's right-hand side: the remainder of the last 32 bytes. */
  ghost function WindowResidue(p: seq<Byte>, i: nat): bv32
    requires i <= |p|
  {
    Residue(Window(p, i))
  }

  ghost predicate WindowByte(win: seq<bv32>, c: Byte)
    requires |win| == 256
  {
    win[c as int] == MulXn(Word(c), 8 * (NWINDOW - 1))
  }

  /** Each window entry removes a byte that entered 31 steps ago. */
  ghost predicate Windowed(win: seq<bv32>) {
    |win| == 256 && forall c: Byte :: WindowByte(win, c)
  }

  lemma ResidueIs(data: seq<Byte>, c: Byte)
    ensures Residue(data + [c]) == XorW(MulXn(Residue(data), 8), Word(c))
  {
    assert (data + [c])[..|data|] == data;
  }

  lemma ResidueOfNone()
    ensures Residue([]) == 0
  {
  }

  /** The first byte's share of a remainder. */
  lemma {:induction false} ResidueHead(c: Byte, data: seq<Byte>)
    ensures Residue([c] + data) == XorW(MulXn(Word(c), 8 * |data|), Residue(data))
  {
    hide *;
    if data == [] {
      assert [c] + data == [] + [c];
      ResidueOfNone();
      ResidueIs([], c);
      MulXnZero(8);
      MulXn0(Word(c));
      XorZero(Word(c));
    } else {
      var front, last := data[..|data| - 1], data[|data| - 1];
      assert data == front + [last] && [c] + data == ([c] + front) + [last];
      ResidueHead(c, front);
      ResidueIs([c] + front, last);
      ResidueIs(front, last);
      MulXnLinear(MulXn(Word(c), 8 * |front|), Residue(front), 8);
      MulXnAdd(Word(c), 8 * |front|, 8);
      XorLaws(MulXn(Word(c), 8 * |data|), MulXn(Residue(front), 8), Word(last));
    }
  }

  lemma RollingIs(tab: seq<bv32>, win: seq<bv32>, p: seq<Byte>, i: nat)
    requires |tab| == 256 == |win| && 0 < i <= |p|
    ensures i <= NWINDOW ==> Rolling(tab, win, p, i) == Feed(tab, Rolling(tab, win, p, i - 1), p[i - 1])
    ensures i > NWINDOW ==>
              Rolling(tab, win, p, i)
                  == Feed(tab, XorW(Rolling(tab, win, p, i - 1), win[p[i - 1 - NWINDOW] as int]), p[i - 1])
  {
  }

  lemma RollingNone(tab: seq<bv32>, win: seq<bv32>, p: seq<Byte>)
    requires |tab| == 256 == |win|
    ensures Rolling(tab, win, p, 0) == 0 && WindowResidue(p, 0) == 0
  {
  }

  lemma ShortWindow(p: seq<Byte>, i: nat)
    requires 0 < i <= |p| && i <= NWINDOW
    ensures WindowResidue(p, i) == Residue(p[..i - 1] + [p[i - 1]]) && WindowResidue(p, i - 1) == Residue(p[..i - 1])
  {
    assert p[..i] == p[..i - 1] + [p[i - 1]];
  }

  /** The 31 bytes that stay in the window when byte i - 1 comes in. */
  function Stay(p: seq<Byte>, i: nat): (w: seq<Byte>)
    requires NWINDOW < i <= |p|
    ensures |w| == NWINDOW - 1
  {
    p[i - NWINDOW..i - 1]
  }

  lemma LongWindow(p: seq<Byte>, i: nat)
    requires NWINDOW < i <= |p|
    ensures WindowResidue(p, i) == Residue(Stay(p, i) + [p[i - 1]])
    ensures WindowResidue(p, i - 1) == Residue([p[i - 1 - NWINDOW]] + Stay(p, i))
  {
    assert p[i - NWINDOW..i] == Stay(p, i) + [p[i - 1]];
    if i - 1 == NWINDOW {
      assert p[..i - 1] == [p[0]] + Stay(p, i);
    } else {
      assert p[i - 1 - NWINDOW..i - 1] == [p[i - 1 - NWINDOW]] + Stay(p, i);
    }
  }

  lemma WindowedAt(win: seq<bv32>, c: Byte)
    requires Windowed(win)
    ensures |win| == 256 && win[c as int] == MulXn(Word(c), 248)
  {
    assert WindowByte(win, c);
  }

  lemma RedTabSize(tab: seq<bv32>)
    requires RedTab(tab)
    ensures |tab| == 256
  {
  }

  /** Up to 32 bytes the window table is not looked at. */
  lemma {:induction false} RollingShort(tab: seq<bv32>, win: seq<bv32>, p: seq<Byte>, i: nat)
    requires RedTab(tab) && |win| == 256 && i <= |p| && i <= NWINDOW
    ensures |tab| == 256 && Rolling(tab, win, p, i) == WindowResidue(p, i)
  {
    hide *;
    RedTabSize(tab);
    if i == 0 {
      RollingNone(tab, win, p);
    } else {
      RollingShort(tab, win, p, i - 1);
      RollingIs(tab, win, p, i);
      ShortWindow(p, i);
      FeedIsMul(tab, Rolling(tab, win, p, i - 1), p[i - 1]);
      ResidueIs(p[..i - 1], p[i - 1]);
    }
  }

  /** With tables for a 32-byte window, the rolling value is the remainder of the last 32 bytes. */
  lemma {:induction false} RollingIsWindow(tab: seq<bv32>, win: seq<bv32>, p: seq<Byte>, i: nat)
    requires RedTab(tab) && Windowed(win) && i <= |p|
    ensures |tab| == 256 == |win| && Rolling(tab, win, p, i) == WindowResidue(p, i)
  {
    hide *;
    RedTabSize(tab);
    WindowedAt(win, 0);
    if i <= NWINDOW {
      RollingShort(tab, win, p, i);
    } else {
      NWindowIs();
      RollingIsWindow(tab, win, p, i - 1);
      LongWindow(p, i);
      RollingIs(tab, win, p, i);
      var w, c, last := Stay(p, i), p[i - 1 - NWINDOW], p[i - 1];
      WindowedAt(win, c);
      ResidueHead(c, w);
      XorLaws(MulXn(Word(c), 248), Residue(w), MulXn(Word(c), 248));
      XorZero(Residue(w));
      FeedIsMul(tab, Residue(w), last);
      ResidueIs(w, last);
    }
  }

  lemma Injective(h: bv32)
    requires MulX(h) == 0
    ensures h == 0
  {
  }

  lemma {:induction false} MulXnInjective(h: bv32, n: nat)
    requires MulXn(h, n) == 0
    ensures h == 0
  {
    hide *;
    if n == 0 {
      MulXn0(h);
    } else {
      MulXnIs(h, n);
      Injective(MulXn(h, n - 1));
      MulXnInjective(h, n - 1);
    }
  }

  ghost predicate IsWindowHash(tab: seq<bv32>, win: seq<bv32>, p: seq<Byte>, i: nat)
    requires |tab| == 256 == |win|
  {
    i <= |p| ==> Rolling(tab, win, p, i) == WindowResidue(p, i)
  }

  function Zeros(n: nat): (z: seq<Byte>)
    ensures |z| == n && forall k :: 0 <= k < n ==> z[k] == 0
  {
    seq(n, _ => 0)
  }

  lemma {:induction false} ResidueOfZeros(n: nat)
    ensures Residue(Zeros(n)) == 0
  {
    if n > 0 {
      ResidueOfZeros(n - 1);
      assert Zeros(n) == Zeros(n - 1) + [0];
      ResidueIs(Zeros(n - 1), 0);
      MulXnZero(8);
    }
  }

  /** One byte and then zeros shows whether the entry of that byte is right. */
  lemma WindowByteNeeded(tab: seq<bv32>, win: seq<bv32>, c: Byte)
    requires RedTab(tab) && |tab| == 256 == |win| && Rolling(tab, win, [c] + Zeros(32), 33) == 0
    ensures WindowByte(win, c)
  {
    var p := [c] + Zeros(32);
    RollingShort(tab, win, p, 32);
    assert p[..32] == [c] + Zeros(31);
    ResidueHead(c, Zeros(31));
    ResidueOfZeros(31);
    EntryTested(tab, win, p, c);
  }

  lemma EntryTested(tab: seq<bv32>, win: seq<bv32>, p: seq<Byte>, c: Byte)
    requires RedTab(tab) && |tab| == 256 == |win| && |p| == 33 && p[0] == c && p[32] == 0
    requires Rolling(tab, win, p, 32) == XorW(MulXn(Word(c), 248), 0) && Rolling(tab, win, p, 33) == 0
    ensures win[c as int] == MulXn(Word(c), 248)
  {
    hide *;
    var h := Rolling(tab, win, p, 32);
    RollingIs(tab, win, p, 33);
    NWindowIs();
    FeedIsMul(tab, XorW(h, win[c as int]), 0);
    XorZero(h);
    XorZero(MulXn(Word(c), 248));
    XorZero(MulXn(XorW(h, win[c as int]), 8));
    PushZero(0);
    MulXnInjective(XorW(h, win[c as int]), 8);
    XorEqual(h, win[c as int]);
  }

  lemma NWindowIs()
    ensures NWINDOW == 32
  {
  }

  lemma XorEqual(a: bv32, b: bv32)
    requires XorW(a, b) == 0
    ensures a == b
  {
  }

  lemma {:induction false} RollingPrefix(tab: seq<bv32>, win: seq<bv32>, p: seq<Byte>, q: seq<Byte>, i: nat)
    requires |tab| == 256 == |win| && i <= |p| <= |q| && p[..i] == q[..i]
    ensures Rolling(tab, win, p, i) == Rolling(tab, win, q, i)
  {
    if i > 0 {
      assert p[..i - 1] == p[..i][..i - 1] && q[..i - 1] == q[..i][..i - 1];
      RollingPrefix(tab, win, p, q, i - 1);
      assert p[i - 1] == p[..i][i - 1] == q[..i][i - 1];
      if i > NWINDOW { assert p[i - 1 - NWINDOW] == p[..i][i - 1 - NWINDOW] == q[..i][i - 1 - NWINDOW]; }
    }
  }

  /** The rolling value is a fingerprint of the last 32 bytes, for every input and position, exactly if the
      window table was built for 32 bytes. */
  lemma WindowHashIff(tab: seq<bv32>, win: seq<bv32>)
    requires RedTab(tab) && |tab| == 256 == |win|
    ensures (forall p: seq<Byte>, i: nat :: IsWindowHash(tab, win, p, i)) <==> Windowed(win)
  {
    if Windowed(win) {
      forall p: seq<Byte>, i: nat ensures IsWindowHash(tab, win, p, i) {
        if i <= |p| { RollingIsWindow(tab, win, p, i); }
      }
    }
    if forall p: seq<Byte>, i: nat :: IsWindowHash(tab, win, p, i) {
      forall c: Byte ensures WindowByte(win, c) {
        var p := [c] + Zeros(32);
        assert IsWindowHash(tab, win, p, 33);
        assert p[1..33] == Zeros(32);
        ResidueOfZeros(32);
        WindowByteNeeded(tab, win, c);
      }
    }
  }

  /** Inputs that agree on the last 32 of i bytes have the same rolling value there. */
  ghost predicate Agree(tab: seq<bv32>, win: seq<bv32>, p: seq<Byte>, q: seq<Byte>, i: nat)
    requires |tab| == 256 == |win|
  {
    i <= |p| && i <= |q| && Window(p, i) == Window(q, i) ==> Rolling(tab, win, p, i) == Rolling(tab, win, q, i)
  }

  lemma RollingOfZeros(tab: seq<bv32>, win: seq<bv32>)
    requires RedTab(tab) && |tab| == 256 == |win| && win[0] == 0
    ensures Rolling(tab, win, Zeros(33), 33) == 0
  {
    var q := Zeros(33);
    RollingShort(tab, win, q, 32);
    assert q[..32] == Zeros(32);
    ResidueOfZeros(32);
    RollingIs(tab, win, q, 33);
    XorZero(0);
    FeedIsMul(tab, 0, 0);
    MulXnZero(8);
    PushZero(0);
  }

  /** If the entry of c is wrong, then c as the byte just left behind changes the rolling value. */
  lemma OldByteShows(tab: seq<bv32>, win: seq<bv32>, c: Byte)
    requires RedTab(tab) && |tab| == 256 == |win| && win[0] == 0 && !WindowByte(win, c)
    ensures var p, q := [c] + Zeros(32), Zeros(33);
            && Window(p, 33) == Window(q, 33)
            && Rolling(tab, win, p, 33) != Rolling(tab, win, q, 33)
  {
    hide Rolling, WindowByte, RedTab;
    var p, q := [c] + Zeros(32), Zeros(33);
    assert Window(p, 33) == Zeros(32) == Window(q, 33);
    RollingOfZeros(tab, win);
    if Rolling(tab, win, p, 33) == 0 { WindowByteNeeded(tab, win, c); }
  }

  /** The rolling value depends on the last 32 bytes alone, for all inputs and positions, exactly if the window
      table is right for 32 bytes. */
  lemma DependsOnWindowIff(tab: seq<bv32>, win: seq<bv32>)
    requires RedTab(tab) && |tab| == 256 == |win| && win[0] == 0
    ensures (forall p: seq<Byte>, q: seq<Byte>, i: nat :: Agree(tab, win, p, q, i)) <==> Windowed(win)
  {
    if Windowed(win) {
      forall p: seq<Byte>, q: seq<Byte>, i: nat ensures Agree(tab, win, p, q, i) {
        if i <= |p| && i <= |q| {
          RollingIsWindow(tab, win, p, i);
          RollingIsWindow(tab, win, q, i);
        }
      }
    } else {
      var c :| !WindowByte(win, c);
      OldByteShows(tab, win, c);
      assert !Agree(tab, win, [c] + Zeros(32), Zeros(33), 33);
    }
  }

  // ---- The two window lengths --------------------------------------------------------------------

  function Mul8(h: bv32): bv32 {
    MulX(MulX(MulX(MulX(MulX(MulX(MulX(MulX(h))))))))
  }

  function Mul64(h: bv32): bv32 {
    Mul8(Mul8(Mul8(Mul8(Mul8(Mul8(Mul8(Mul8(h))))))))
  }

  function Mul56(h: bv32): bv32 {
    Mul8(Mul8(Mul8(Mul8(Mul8(Mul8(Mul8(h)))))))
  }

  lemma Mul8Is(h: bv32)
    ensures Mul8(h) == MulXn(h, 8)
  {
    hide MulX;
    MulXn0(h);
    MulXnIs(h, 1);
    MulXnIs(h, 2);
    MulXnIs(h, 3);
    MulXnIs(h, 4);
    MulXnIs(h, 5);
    MulXnIs(h, 6);
    MulXnIs(h, 7);
    MulXnIs(h, 8);
  }

  lemma Mul8After(h: bv32, n: nat)
    ensures Mul8(MulXn(h, n)) == MulXn(h, n + 8)
  {
    hide *;
    Mul8Is(MulXn(h, n));
    MulXnAdd(h, n, 8);
  }

  lemma Mul56Is(h: bv32)
    ensures Mul56(h) == MulXn(h, 56)
  {
    hide Mul8;
    Mul8Is(h);
    Mul8After(h, 8);
    Mul8After(h, 16);
    Mul8After(h, 24);
    Mul8After(h, 32);
    Mul8After(h, 40);
    Mul8After(h, 48);
  }

  lemma Mul64Is(h: bv32)
    ensures Mul64(h) == MulXn(h, 64)
  {
    hide Mul8;
    Mul8Is(h);
    Mul8After(h, 8);
    Mul8After(h, 16);
    Mul8After(h, 24);
    Mul8After(h, 32);
    Mul8After(h, 40);
    Mul8After(h, 48);
    Mul8After(h, 56);
  }

  lemma Powers()
    ensures Mul64(1) == 0xe050_e5e1 && Mul64(0xe050_e5e1) == 0x5051_23d5
  {
  }

  lemma MorePowers()
    ensures Mul64(0x5051_23d5) == 0xb154_b1b6 && Mul56(0xb154_b1b6) == 0x5381_88b7
  {
  }

  /** X^248 is not 1. */
  lemma Power248()
    ensures MulXn(1, 248) == 0x5381_88b7
  {
    hide *;
    Powers();
    MorePowers();
    Mul64Is(1);
    Mul64Is(0xe050_e5e1);
    Mul64Is(0x5051_23d5);
    Mul56Is(0xb154_b1b6);
    MulXnAdd(1, 64, 64);
    MulXnAdd(1, 128, 64);
    MulXnAdd(1, 192, 56);
  }

  lemma ByteEntry(win: seq<bv32>, c: Byte, reach: nat)
    requires WinTab(win, reach)
    ensures |win| == 256 && win[c as int] == MulXn(Word(c), reach)
  {
    assert Entry(win, Word(c), reach);
  }

  /** Tables built for 32 bytes give a window hash. */
  lemma FullWindow(win: seq<bv32>)
    requires WinTab(win, Reach(NWINDOW))
    ensures Windowed(win)
  {
    forall c: Byte ensures WindowByte(win, c) {
      ByteEntry(win, c, 248);
    }
  }

  lemma FirstEntry(win: seq<bv32>, reach: nat)
    requires WinTab(win, reach)
    ensures |win| == 256 && win[0] == 0
  {
    ByteEntry(win, 0, reach);
    MulXnZero(reach);
  }

  /** Tables built for window length 0, as every call site asks for, do not: two inputs with the same last 32
      bytes have different rolling values. */
  lemma CallSiteWindow(tab: seq<bv32>, win: seq<bv32>)
    requires RedTab(tab) && WinTab(win, Reach(0)) && |tab| == 256 == |win|
    ensures !Windowed(win)
    ensures exists p: seq<Byte>, i: nat :: !IsWindowHash(tab, win, p, i)
    ensures var p, q := [1] + Zeros(32), Zeros(33);
            && p[1..] == q[1..]
            && Rolling(tab, win, p, 33) != Rolling(tab, win, q, 33)
  {
    WrongEntry(win);
    hide *;
    NotWindowed(win, 1);
    WindowHashIff(tab, win);
    FirstEntry(win, Reach(0));
    OldByteShows(tab, win, 1);
    assert ([1] + Zeros(32))[1..] == Zeros(32) == Zeros(33)[1..];
  }

  lemma WrongEntry(win: seq<bv32>)
    requires WinTab(win, Reach(0))
    ensures |win| == 256 && !WindowByte(win, 1)
  {
    ByteEntry(win, 1, 0);
    MulXn0(1);
    Power248();
  }

  lemma NotWindowed(win: seq<bv32>, c: Byte)
    requires |win| == 256 && !WindowByte(win, c)
    ensures !Windowed(win)
  {
  }

  // ---- Segmentation ------------------------------------------------------------------------------

  predicate Masked(h: bv32) {
    h & RABIN_MASK == 0
  }

  ghost predicate IsCut(tab: seq<bv32>, win: seq<bv32>, p: seq<Byte>, i: nat)
    requires |tab| == 256 == |win| && i <= |p|
  {
    NWINDOW <= i && Masked(Rolling(tab, win, p, i))
  }

  /** r is the first cut of p, or the length of p if there is none. */
  ghost predicate IsSegment(tab: seq<bv32>, win: seq<bv32>, p: seq<Byte>, r: nat)
    requires |tab| == 256 == |win|
  {
    && r <= |p|
    && (r < |p| ==> IsCut(tab, win, p, r))
    && forall i :: 0 <= i < r ==> !IsCut(tab, win, p, i)
  }

  ghost predicate NoCutUpTo(tab: seq<bv32>, win: seq<bv32>, p: seq<Byte>, i: nat)
    requires |tab| == 256 == |win| && i <= |p|
  {
    forall k :: 0 <= k <= i ==> !IsCut(tab, win, p, k)
  }

  lemma BeforeFirst(tab: seq<bv32>, win: seq<bv32>, p: seq<Byte>)
    requires |tab| == 256 == |win|
    ensures |p| < NWINDOW ==> IsSegment(tab, win, p, |p|)
    ensures |p| >= NWINDOW ==> NoCutUpTo(tab, win, p, NWINDOW - 1)
  {
  }

  /** What the test of the rolling value decides. */
  lemma CutHere(tab: seq<bv32>, win: seq<bv32>, p: seq<Byte>, i: nat)
    requires |tab| == 256 == |win| && NWINDOW <= i <= |p| && NoCutUpTo(tab, win, p, i - 1)
    ensures Masked(Rolling(tab, win, p, i)) ==> IsSegment(tab, win, p, i)
    ensures !Masked(Rolling(tab, win, p, i)) ==> NoCutUpTo(tab, win, p, i)
    ensures !Masked(Rolling(tab, win, p, i)) && i == |p| ==> IsSegment(tab, win, p, i)
  {
    hide Rolling, Masked;
  }

  /** rabinseg; n is the length of p as a C int. */
  method Segment(p: seq<Byte>, n: int, tab: array<bv32>, win: array<bv32>) returns (r: int)
    requires n == |p| < 0x8000_0000 && tab.Length == 256 == win.Length
    ensures 0 <= r && IsSegment(tab[..], win[..], p, r)
  {
    hide *;
    ghost var t, w := tab[..], win[..];
    NWindowIs();
    BeforeFirst(t, w, p);
    if n < NWINDOW { return n; }
    RollingNone(t, w, p);
    var h: bv32 := 0;
    var i := 0;
    while i < NWINDOW
      invariant 0 <= i <= NWINDOW && h == Rolling(t, w, p, i)
    {
      RollingIs(t, w, p, i + 1);
      FeedIs(t, h, p[i]);
      var x := Index(h);
      h := XorW(Push(h, p[i]), tab[x]);
      i := i + 1;
    }
    CutHere(t, w, p, i);
    if Masked(h) { return i; }
    while i < n
      invariant NWINDOW <= i <= n && h == Rolling(t, w, p, i)
      invariant NoCutUpTo(t, w, p, i) && (i == n ==> IsSegment(t, w, p, i))
    {
      RollingIs(t, w, p, i + 1);
      h := XorW(h, win[p[i - NWINDOW] as int]);
      FeedIs(t, h, p[i]);
      var x := Index(h);
      h := XorW(Push(h, p[i]), tab[x]);
      i := i + 1;
      CutHere(t, w, p, i);
      if Masked(h) { return i; }
    }
    return n;
  }

  /** The length of the first segment, as a function. */
  ghost function SegLen(tab: seq<bv32>, win: seq<bv32>, p: seq<Byte>): (r: nat)
    requires |tab| == 256 == |win|
    ensures IsSegment(tab, win, p, r)
  {
    FirstCut(tab, win, p, 0)
  }

  ghost function FirstCut(tab: seq<bv32>, win: seq<bv32>, p: seq<Byte>, i: nat): (r: nat)
    requires |tab| == 256 == |win| && i <= |p|
    ensures i <= r <= |p| && (r < |p| ==> IsCut(tab, win, p, r))
    ensures forall k :: i <= k < r ==> !IsCut(tab, win, p, k)
    decreases |p| - i
  {
    if i == |p| || IsCut(tab, win, p, i) then i else FirstCut(tab, win, p, i + 1)
  }

  lemma SegmentUnique(tab: seq<bv32>, win: seq<bv32>, p: seq<Byte>, r: nat, s: nat)
    requires |tab| == 256 == |win| && IsSegment(tab, win, p, r) && IsSegment(tab, win, p, s)
    ensures r == s
  {
  }

  /** A cut found before the end of the data is found whatever data follows, for any tables. */
  lemma SegmentStable(tab: seq<bv32>, win: seq<bv32>, p: seq<Byte>, more: seq<Byte>)
    requires |tab| == 256 == |win| && SegLen(tab, win, p) < |p|
    ensures SegLen(tab, win, p + more) == SegLen(tab, win, p)
  {
    var r, q := SegLen(tab, win, p), p + more;
    forall i | 0 <= i <= r ensures IsCut(tab, win, q, i) <==> IsCut(tab, win, p, i) {
      assert p[..i] == q[..i];
      RollingPrefix(tab, win, p, q, i);
    }
    SegmentUnique(tab, win, q, r, SegLen(tab, win, q));
  }

  lemma LowTwelveBits(h: bv32)
    ensures Masked(h) <==> h % 4096 == 0
  {
  }

  /** A cut: at least 32 bytes in, where the rolling value is a multiple of 4096. */
  lemma CutIff(tab: seq<bv32>, win: seq<bv32>, p: seq<Byte>, i: nat)
    requires |tab| == 256 == |win| && i <= |p|
    ensures IsCut(tab, win, p, i) <==> 32 <= i && Rolling(tab, win, p, i) % 4096 == 0
  {
    hide Rolling, Masked;
    LowTwelveBits(Rolling(tab, win, p, i));
  }

  lemma FeedZero(tab: seq<bv32>)
    requires |tab| == 256 && tab[0] == 0
    ensures Feed(tab, 0, 0) == 0 && XorW(0, 0) == 0
  {
    assert Index(0) == 0;
  }

  lemma {:induction false} ZerosRoll(tab: seq<bv32>, win: seq<bv32>, n: nat, i: nat)
    requires |tab| == 256 == |win| && tab[0] == 0 == win[0] && i <= n
    ensures Rolling(tab, win, Zeros(n), i) == 0
  {
    hide Feed, XorW;
    FeedZero(tab);
    if i > 0 { ZerosRoll(tab, win, n, i - 1); }
  }

  /** Zero bytes are cut after 32 of them, with the tables of any window length. */
  lemma ZerosCut(tab: seq<bv32>, win: seq<bv32>, reach: nat, n: nat)
    requires RedTab(tab) && WinTab(win, reach) && |tab| == 256 == |win|
    ensures SegLen(tab, win, Zeros(n)) == if n < 32 then n else 32
  {
    FirstEntry(tab, 32);
    FirstEntry(win, reach);
    var p := Zeros(n);
    forall i | 0 <= i <= n ensures IsCut(tab, win, p, i) <==> 32 <= i {
      ZerosRoll(tab, win, n, i);
      CutIff(tab, win, p, i);
    }
    hide Rolling, IsCut;
    SegmentUnique(tab, win, p, if n < 32 then n else 32, SegLen(tab, win, p));
  }

  // ---- Data without a cut ------------------------------------------------------------------------

  /** What the next byte of p is fed into. */
  function Carry(tab: seq<bv32>, win: seq<bv32>, p: seq<Byte>): bv32
    requires |tab| == 256 == |win|
  {
    if |p| < NWINDOW then Rolling(tab, win, p, |p|)
    else XorW(Rolling(tab, win, p, |p|), win[p[|p| - NWINDOW] as int])
  }

  lemma RollingNext(tab: seq<bv32>, win: seq<bv32>, p: seq<Byte>, c: Byte)
    requires |tab| == 256 == |win|
    ensures Rolling(tab, win, p + [c], |p| + 1) == Feed(tab, Carry(tab, win, p), c)
  {
    RollingPrefix(tab, win, p, p + [c], |p|);
    hide Feed;
  }

  /** Two of any three bytes spare a rolling value, so one of them spares two values. */
  lemma SpareByte(g: bv32, h: bv32, s: bv32, t: bv32) returns (c: Byte)
    ensures !Masked(XorW(Push(g, c), s)) && !Masked(XorW(Push(h, c), t))
  {
    if !Masked(XorW(Push(g, 0), s)) && !Masked(XorW(Push(h, 0), t)) {
      c := 0;
    } else if !Masked(XorW(Push(g, 1), s)) && !Masked(XorW(Push(h, 1), t)) {
      c := 1;
    } else {
      c := 2;
    }
  }

  ghost predicate Uncut(tab: seq<bv32>, win: seq<bv32>, p: seq<Byte>)
    requires |tab| == 256 == |win|
  {
    NoCutUpTo(tab, win, p, |p|)
  }

  lemma UncutNext(tab: seq<bv32>, win: seq<bv32>, p: seq<Byte>, c: Byte)
    requires |tab| == 256 == |win| && Uncut(tab, win, p) && !Masked(Feed(tab, Carry(tab, win, p), c))
    ensures Uncut(tab, win, p + [c])
  {
    hide Rolling, Masked, Feed, Carry;
    forall k | 0 <= k <= |p| + 1 ensures !IsCut(tab, win, p + [c], k) {
      if k <= |p| {
        RollingPrefix(tab, win, p, p + [c], k);
        assert !IsCut(tab, win, p, k);
      } else {
        RollingNext(tab, win, p, c);
      }
    }
  }

  lemma UncutNone(tab: seq<bv32>, win: seq<bv32>)
    requires |tab| == 256 == |win|
    ensures Uncut(tab, win, [])
  {
  }

  /** For any tables there is data of any length without a cut, nor one behind its first jump bytes. */
  lemma {:induction false} UncutData(tab: seq<bv32>, win: seq<bv32>, jump: nat, n: nat) returns (p: seq<Byte>)
    requires |tab| == 256 == |win|
    ensures |p| == n && Uncut(tab, win, p) && (jump <= n ==> Uncut(tab, win, p[jump..]))
  {
    hide *;
    if n == 0 {
      p := [];
      UncutNone(tab, win);
    } else {
      var q := UncutData(tab, win, jump, n - 1);
      var late := if jump < n then q[jump..] else [];
      var g, h := Carry(tab, win, q), Carry(tab, win, late);
      var c := SpareByte(g, h, tab[Index(g)], tab[Index(h)]);
      FeedIs(tab, g, c);
      FeedIs(tab, h, c);
      UncutNext(tab, win, q, c);
      p := q + [c];
      if jump < n {
        UncutNext(tab, win, late, c);
        assert p[jump..] == late + [c];
      } else if jump == n {
        UncutNone(tab, win);
      }
    }
  }

  lemma UncutWhole(tab: seq<bv32>, win: seq<bv32>, p: seq<Byte>)
    requires |tab| == 256 == |win| && Uncut(tab, win, p)
    ensures SegLen(tab, win, p) == |p|
  {
    SegmentUnique(tab, win, p, |p|, SegLen(tab, win, p));
  }
}
