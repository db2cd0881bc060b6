/** The sort of the header table: quicksort with an insertion sort for short stretches, by falling count. */
module FpSort {
  /** A count and the item that has it. */
  type Pair = (nat, nat)

  const SORTHRESH := 9

  ghost function Zip(a: seq<nat>, b: seq<nat>): (s: seq<Pair>)
    requires |a| == |b|
    ensures |s| == |a| && forall k :: 0 <= k < |s| ==> s[k] == (a[k], b[k])
  {
    seq(|a|, k requires 0 <= k < |a| => (a[k], b[k]))
  }

  function Exchange<T>(s: seq<T>, i: nat, j: nat): (t: seq<T>)
    requires i < |s| && j < |s|
    ensures |t| == |s| && t[i] == s[j] && t[j] == s[i]
    ensures forall k :: 0 <= k < |s| && k != i && k != j ==> t[k] == s[k]
  {
    s[i := s[j]][j := s[i]]
  }

  /** s has the elements of t, rearranged between lo and hi. */
  ghost predicate Within(t: seq<Pair>, s: seq<Pair>, lo: nat, hi: nat) {
    && |s| == |t| && lo <= hi <= |t|
    && s[..lo] == t[..lo] && s[hi..] == t[hi..]
    && multiset(s[lo..hi]) == multiset(t[lo..hi])
  }

  ghost predicate Falling(s: seq<Pair>, lo: nat, hi: nat) {
    hi <= |s| && forall k, m :: lo <= k < m < hi ==> s[k].0 >= s[m].0
  }

  ghost predicate AtLeast(s: seq<Pair>, lo: nat, hi: nat, p: nat) {
    hi <= |s| && forall k :: lo <= k < hi ==> s[k].0 >= p
  }

  ghost predicate AtMost(s: seq<Pair>, lo: nat, hi: nat, p: nat) {
    hi <= |s| && forall k :: lo <= k < hi ==> s[k].0 <= p
  }

  lemma WithinTrans(t: seq<Pair>, s: seq<Pair>, u: seq<Pair>, lo: nat, hi: nat)
    requires Within(t, s, lo, hi) && Within(s, u, lo, hi)
    ensures Within(t, u, lo, hi)
  {
  }

  lemma WithinExchange(s: seq<Pair>, i: nat, j: nat, lo: nat, hi: nat)
    requires lo <= i < hi <= |s| && lo <= j < hi
    ensures Within(s, Exchange(s, i, j), lo, hi)
  {
    hide Exchange;
    var t := Exchange(s, i, j);
    assert t[..lo] == s[..lo] && t[hi..] == s[hi..];
    ExchangeInside(s, i, j, lo, hi);
    ExchangeKeeps(s[lo..hi], i - lo, j - lo);
  }

  lemma ExchangeInside(s: seq<Pair>, i: nat, j: nat, lo: nat, hi: nat)
    requires lo <= i < hi <= |s| && lo <= j < hi
    ensures Exchange(s, i, j)[lo..hi] == Exchange(s[lo..hi], i - lo, j - lo)
  {
    hide Exchange;
  }

  lemma ExchangeKeeps(s: seq<Pair>, i: nat, j: nat)
    requires i < |s| && j < |s|
    ensures multiset(Exchange(s, i, j)) == multiset(s)
  {
  }

  lemma WithinWiden(t: seq<Pair>, s: seq<Pair>, lo: nat, hi: nat, lo': nat, hi': nat)
    requires Within(t, s, lo, hi) && lo' <= lo && hi <= hi' <= |t|
    ensures Within(t, s, lo', hi')
  {
    assert s[..lo'] == s[..lo][..lo'] == t[..lo][..lo'] == t[..lo'];
    assert s[hi'..] == s[hi..][hi' - hi..] == t[hi..][hi' - hi..] == t[hi'..];
    var x, y := t[..lo][lo'..], t[hi..][..hi' - hi];
    assert s[..lo][lo'..] == x && s[hi..][..hi' - hi] == y;
    assert t[lo'..hi'] == x + t[lo..hi] + y;
    assert s[lo'..hi'] == x + s[lo..hi] + y;
  }

  /** Outside the stretch nothing has moved, inside everything is still there. */
  lemma WithinAt(t: seq<Pair>, s: seq<Pair>, lo: nat, hi: nat, k: nat)
    requires Within(t, s, lo, hi) && k < |s|
    ensures k < lo || hi <= k ==> s[k] == t[k]
    ensures lo <= k < hi ==> exists m :: lo <= m < hi && t[m] == s[k]
  {
    if k < lo {
      assert s[..lo][k] == t[..lo][k];
    } else if hi <= k {
      assert s[hi..][k - hi] == t[hi..][k - hi];
    } else {
      assert s[lo..hi][k - lo] in multiset(s[lo..hi]);
      assert s[k] in t[lo..hi];
      var m :| 0 <= m < hi - lo && t[lo..hi][m] == s[k];
      assert t[lo + m] == s[k];
    }
  }

  lemma WithinBounds(t: seq<Pair>, s: seq<Pair>, lo: nat, hi: nat, p: nat)
    requires Within(t, s, lo, hi)
    ensures AtLeast(t, lo, hi, p) ==> AtLeast(s, lo, hi, p)
    ensures AtMost(t, lo, hi, p) ==> AtMost(s, lo, hi, p)
  {
    hide Within;
    WithinSize(t, s, lo, hi);
    forall k | lo <= k < hi ensures exists m :: lo <= m < hi && t[m] == s[k] {
      WithinAt(t, s, lo, hi, k);
    }
  }

  lemma WithinSize(t: seq<Pair>, s: seq<Pair>, lo: nat, hi: nat)
    requires Within(t, s, lo, hi)
    ensures |s| == |t| && lo <= hi <= |t|
  {
  }

  /** What another stretch looks like is not affected. */
  lemma WithinElsewhere(t: seq<Pair>, s: seq<Pair>, lo: nat, hi: nat, a: nat, b: nat)
    requires Within(t, s, lo, hi) && (b <= lo || hi <= a) && b <= |t|
    ensures |s| == |t| && forall k :: a <= k < b ==> s[k] == t[k]
  {
    hide Within;
    WithinSize(t, s, lo, hi);
    forall k | a <= k < b ensures s[k] == t[k] { WithinAt(t, s, lo, hi, k); }
  }

  // ---- The arrays --------------------------------------------------------------------------------

  ghost function Both(counts: array<nat>, items: array<nat>): (s: seq<Pair>)
    requires counts.Length == items.Length
    reads counts, items
    ensures |s| == counts.Length
  {
    Zip(counts[..], items[..])
  }

  lemma BothAt(counts: array<nat>, items: array<nat>, k: nat)
    requires counts.Length == items.Length && k < counts.Length
    ensures Both(counts, items)[k] == (counts[k], items[k])
  {
  }

  method Swap(counts: array<nat>, items: array<nat>, i: nat, j: nat)
    requires counts != items && counts.Length == items.Length && i < counts.Length && j < counts.Length
    modifies counts, items
    ensures Both(counts, items) == Exchange(old(Both(counts, items)), i, j)
  {
    counts[i], counts[j] := counts[j], counts[i];
    items[i], items[j] := items[j], items[i];
  }

  /** In order but for element m, which is larger than the ones behind it. */
  ghost predicate Sinking(s: seq<Pair>, i: nat, m: nat, k: nat) {
    && i <= m <= k < |s|
    && (forall p, q :: i <= p < q <= k && p != m && q != m ==> s[p].0 >= s[q].0)
    && forall q :: m < q <= k ==> s[m].0 >= s[q].0
  }

  lemma SinkOn(s: seq<Pair>, i: nat, m: nat, k: nat)
    requires Sinking(s, i, m, k) && i < m && s[m].0 > s[m - 1].0
    ensures Sinking(Exchange(s, m, m - 1), i, m - 1, k)
  {
    var t := Exchange(s, m, m - 1);
    forall p, q | i <= p < q <= k && p != m - 1 && q != m - 1 ensures t[p].0 >= t[q].0 {
      assert p == m ==> t[p] == s[m - 1];
      assert q == m ==> t[q] == s[m - 1];
    }
  }

  lemma Sunk(s: seq<Pair>, i: nat, m: nat, k: nat)
    requires Sinking(s, i, m, k) && (m == i || s[m].0 <= s[m - 1].0)
    ensures Falling(s, i, k + 1)
  {
    forall p, q | i <= p < q < k + 1 ensures s[p].0 >= s[q].0 {
      if q == m { assert p <= m - 1 && (p < m - 1 ==> s[p].0 >= s[m - 1].0); }
    }
  }

  /** Element k moves forward past the smaller ones. */
  method Sink(counts: array<nat>, items: array<nat>, i: nat, k: nat, ghost j: nat,
          ghost start: seq<Pair>) returns (m: nat)
    requires counts != items && counts.Length == items.Length && i <= k <= j < counts.Length
    requires Within(start, Both(counts, items), i, j + 1) && Sinking(Both(counts, items), i, k, k)
    modifies counts, items
    ensures Within(start, Both(counts, items), i, j + 1) && Sinking(Both(counts, items), i, m, k)
    ensures m == i || (i < m <= k && counts[m] <= counts[m - 1])
  {
    hide *;
    m := k;
    while m > i && counts[m] > counts[m - 1]
      invariant i <= m <= k
      invariant Within(start, Both(counts, items), i, j + 1) && Sinking(Both(counts, items), i, m, k)
    {
      ghost var s := Both(counts, items);
      BothAt(counts, items, m);
      BothAt(counts, items, m - 1);
      SinkOn(s, i, m, k);
      WithinExchange(s, m, m - 1, i, j + 1);
      Swap(counts, items, m, m - 1);
      WithinTrans(start, s, Both(counts, items), i, j + 1);
      m := m - 1;
    }
  }

  /** Insertion sort between i and j. */
  method InsSort(counts: array<nat>, items: array<nat>, i: nat, j: nat)
    requires counts != items && counts.Length == items.Length && i <= j < counts.Length
    modifies counts, items
    ensures Within(old(Both(counts, items)), Both(counts, items), i, j + 1)
    ensures Falling(Both(counts, items), i, j + 1)
  {
    hide Within, Falling, Sinking, Exchange, Both, Zip;
    ghost var start := Both(counts, items);
    WithinSame(start, i, j + 1);
    SingleFalls(start, i);
    var k := i + 1;
    while k <= j
      invariant i + 1 <= k <= j + 1
      invariant Within(start, Both(counts, items), i, j + 1) && Falling(Both(counts, items), i, k)
    {
      StartSinking(Both(counts, items), i, k);
      var m := Sink(counts, items, i, k, j, start);
      BothAt(counts, items, m);
      if m > i { BothAt(counts, items, m - 1); }
      Sunk(Both(counts, items), i, m, k);
      k := k + 1;
    }
  }

  lemma WithinSame(s: seq<Pair>, lo: nat, hi: nat)
    requires lo <= hi <= |s|
    ensures Within(s, s, lo, hi)
  {
  }

  lemma SingleFalls(s: seq<Pair>, i: nat)
    requires i < |s|
    ensures Falling(s, i, i) && Falling(s, i, i + 1)
  {
  }

  lemma StartSinking(s: seq<Pair>, i: nat, k: nat)
    requires Falling(s, i, k) && i <= k < |s|
    ensures Sinking(s, i, k, k)
  {
  }

  // ---- Partition ---------------------------------------------------------------------------------

  /** Up to l everything is large enough, from r on small enough; the pivot is at j. */
  ghost predicate Parted(s: seq<Pair>, i: nat, l: int, r: int, j: nat, pivot: nat) {
    && i <= l + 1 && 0 <= r <= j < |s| && l < j && s[j].0 == pivot
    && AtLeast(s, i, l + 1, pivot) && AtMost(s, r, j, pivot)
  }

  lemma PartedSwap(s: seq<Pair>, i: nat, l: nat, r: nat, r0: nat, j: nat, pivot: nat)
    requires i <= l < r < r0 <= j < |s| && s[j].0 == pivot
    requires AtLeast(s, i, l, pivot) && AtMost(s, r + 1, j, pivot)
    requires s[l].0 <= pivot <= s[r].0
    ensures Parted(Exchange(s, l, r), i, l, r, j, pivot)
  {
  }

  /** The last exchange is made and taken back. */
  method SwapAndBack(counts: array<nat>, items: array<nat>, l: nat, r: nat)
    requires counts != items && counts.Length == items.Length && l < counts.Length && r < counts.Length
    modifies counts, items
    ensures counts[..] == old(counts[..]) && items[..] == old(items[..])
  {
    ghost var c, x := counts[..], items[..];
    Swap(counts, items, l, r);
    Swap(counts, items, l, r);
    ZipDetermines(counts[..], items[..], c, x);
  }

  lemma ZipDetermines(c: seq<nat>, x: seq<nat>, d: seq<nat>, y: seq<nat>)
    requires |c| == |x| == |d| == |y| && Zip(c, x) == Zip(d, y)
    ensures c == d && x == y
  {
    forall k | 0 <= k < |c| ensures c[k] == d[k] && x[k] == y[k] {
      assert Zip(c, x)[k] == Zip(d, y)[k];
    }
  }

  /** Exchange two elements that are on the wrong sides. */
  method SwapApart(counts: array<nat>, items: array<nat>, l: nat, r: nat, ghost start: seq<Pair>, ghost i: nat,
          ghost r1: nat, ghost j: nat, ghost pivot: nat)
    requires counts != items && counts.Length == items.Length && i <= l < r < r1 <= j < counts.Length
    requires Within(start, Both(counts, items), i, j) && counts[j] == pivot && counts[l] <= pivot <= counts[r]
    requires AtLeast(Both(counts, items), i, l, pivot) && AtMost(Both(counts, items), r + 1, j, pivot)
    modifies counts, items
    ensures Within(start, Both(counts, items), i, j) && Parted(Both(counts, items), i, l, r, j, pivot)
    ensures forall k :: 0 <= k < i ==> counts[k] == old(counts[k])
  {
    hide *;
    ghost var s := Both(counts, items);
    BothAt(counts, items, j);
    BothAt(counts, items, l);
    BothAt(counts, items, r);
    forall k | 0 <= k < i ensures s[k] == (counts[k], items[k]) {
      BothAt(counts, items, k);
    }
    PartedSwap(s, i, l, r, r1, j, pivot);
    WithinExchange(s, l, r, i, j);
    Swap(counts, items, l, r);
    WithinTrans(start, s, Both(counts, items), i, j);
    ExchangeBefore(s, l, r, i);
    forall k | 0 <= k < i ensures counts[k] == old(counts[k]) {
      BothAt(counts, items, k);
    }
  }

  lemma ExchangeBefore(s: seq<Pair>, l: nat, r: nat, i: nat)
    requires i <= l < |s| && i <= r < |s|
    ensures |Exchange(s, l, r)| == |s| && forall k :: 0 <= k < i ==> Exchange(s, l, r)[k] == s[k]
  {
  }

  /**
   * Divide the elements from l0 + 1 up to r0 around the pivot, which is element r0: the larger ones
   * come first, and k is where the smaller ones begin.  To the left of the stretch there is nothing,
   * or an element that is not smaller than the pivot.
   */
  method Partition(counts: array<nat>, items: array<nat>, l0: int, r0: nat, pivot: nat) returns (k: nat)
    requires counts != items && counts.Length == items.Length && -1 <= l0 && l0 + 1 < r0 < counts.Length
    requires counts[r0] == pivot && (l0 >= 0 ==> counts[l0] >= pivot)
    modifies counts, items
    ensures l0 + 1 <= k <= r0
    ensures Within(old(Both(counts, items)), Both(counts, items), l0 + 1, r0)
    ensures counts[r0] == pivot
    ensures AtLeast(Both(counts, items), l0 + 1, k, pivot) && AtMost(Both(counts, items), k, r0, pivot)
  {
    hide Within;
    ghost var start := Both(counts, items);
    ghost var i: nat := l0 + 1;
    WithinSame(start, i, r0);
    var l, r: int := l0, r0;
    while true
      invariant l0 <= l < r <= r0 && l0 + 1 < r
      invariant Within(start, Both(counts, items), i, r0) && Parted(Both(counts, items), i, l, r, r0, pivot)
      invariant l0 >= 0 ==> counts[l0] >= pivot
      decreases r - l
    {
      l := ScanUp(counts, items, i, l + 1, r, r0, pivot);
      ghost var r1 := r;
      r := ScanDown(counts, items, i, l, r, r0, pivot);
      if l >= r {
        SwapAndBack(counts, items, l, r);
        break;
      }
      SwapApart(counts, items, l, r, start, i, r1, r0, pivot);
    }
    k := l;
  }

  /** The first element from l0 on that is not larger than the pivot. */
  method ScanUp(counts: array<nat>, items: array<nat>, ghost i: nat, l0: nat, ghost r: nat, ghost j: nat, pivot: nat)
    returns (l: nat)
    requires counts.Length == items.Length && i <= l0 <= r <= j < counts.Length
    requires Parted(Both(counts, items), i, l0 - 1, r, j, pivot)
    ensures l0 <= l <= r && counts[l] <= pivot && AtLeast(Both(counts, items), i, l, pivot)
  {
    l := l0;
    while counts[l] > pivot
      invariant l0 <= l <= r && AtLeast(Both(counts, items), i, l, pivot)
      decreases r - l
    {
      l := l + 1;
    }
  }

  /** The last element before r0 that is not smaller than the pivot, or 0. */
  method ScanDown(counts: array<nat>, items: array<nat>, ghost i: nat, l: nat, r0: nat, ghost j: nat, pivot: nat)
    returns (r: nat)
    requires counts.Length == items.Length && i <= l <= r0 <= j < counts.Length && i < r0
    requires AtLeast(Both(counts, items), i, l, pivot) && AtMost(Both(counts, items), r0, j, pivot)
    requires i > 0 ==> counts[i - 1] >= pivot
    ensures l - 1 <= r < r0 && (l < r ==> counts[r] >= pivot)
    ensures AtMost(Both(counts, items), r + 1, j, pivot)
    ensures l >= r ==> AtMost(Both(counts, items), l + 1, j, pivot)
  {
    r := r0;
    while true
      invariant l <= r <= r0 && AtMost(Both(counts, items), r, j, pivot)
      decreases r
    {
      if r == 0 { break; }
      r := r - 1;
      if counts[r] >= pivot { break; }
    }
  }

  // ---- Quicksort ---------------------------------------------------------------------------------

  /** What is around the stretch does not interfere: the element before it is as large as any in it. */
  ghost predicate Fenced(s: seq<Pair>, i: nat, j: nat) {
    i <= j < |s| && (i > 0 ==> AtMost(s, i, j + 1, s[i - 1].0))
  }

  /** The pivot stands where it belongs. */
  ghost predicate Divided(s: seq<Pair>, i: nat, k: nat, j: nat) {
    i <= k <= j < |s| && AtLeast(s, i, k, s[k].0) && AtMost(s, k, j + 1, s[k].0)
  }

  lemma DividedFences(s: seq<Pair>, i: nat, k: nat, j: nat)
    requires Divided(s, i, k, j) && Fenced(s, i, j)
    ensures i < k ==> Fenced(s, i, k - 1)
    ensures k < j ==> Fenced(s, k + 1, j)
  {
  }

  lemma PivotPlaced(s: seq<Pair>, i: nat, k: nat, j: nat, pivot: nat)
    requires i <= k <= j < |s| && s[j].0 == pivot && AtLeast(s, i, k, pivot) && AtMost(s, k, j, pivot)
    ensures Divided(Exchange(s, k, j), i, k, j)
  {
  }

  lemma FencedWithin(t: seq<Pair>, s: seq<Pair>, i: nat, j: nat)
    requires Within(t, s, i, j + 1) && Fenced(t, i, j)
    ensures Fenced(s, i, j)
  {
    hide Within;
    WithinSize(t, s, i, j + 1);
    if i > 0 {
      WithinAt(t, s, i, j + 1, i - 1);
      WithinBounds(t, s, i, j + 1, t[i - 1].0);
    }
  }

  /** Sorting the first part leaves the pivot and the rest in place. */
  lemma FirstSorted(t: seq<Pair>, s: seq<Pair>, i: nat, k: nat, j: nat)
    requires Divided(t, i, k, j) && Within(t, s, i, k) && Falling(s, i, k)
    ensures Divided(s, i, k, j) && Falling(s, i, k + 1)
  {
    hide Within;
    WithinSize(t, s, i, k);
    WithinElsewhere(t, s, i, k, k, j + 1);
    WithinBounds(t, s, i, k, t[k].0);
  }

  lemma SecondSorted(t: seq<Pair>, s: seq<Pair>, i: nat, k: nat, j: nat)
    requires Divided(t, i, k, j) && Falling(t, i, k + 1)
    requires Within(t, s, k + 1, j + 1) && Falling(s, k + 1, j + 1)
    ensures Falling(s, i, j + 1)
  {
    hide Within;
    WithinSize(t, s, k + 1, j + 1);
    WithinElsewhere(t, s, k + 1, j + 1, i, k + 1);
    WithinBounds(t, s, k + 1, j + 1, t[k].0);
  }

  /** Sort the elements from i to j by falling count. */
  method Sort(counts: array<nat>, items: array<nat>, i: nat, j: nat)
    requires counts != items && counts.Length == items.Length && Fenced(Both(counts, items), i, j)
    modifies counts, items
    ensures Within(old(Both(counts, items)), Both(counts, items), i, j + 1)
    ensures Falling(Both(counts, items), i, j + 1)
    decreases j - i, 1
  {
    hide *;
    ghost var start := Both(counts, items);
    FenceSize(start, i, j);
    SmallIs();
    if j - i < SORTHRESH {
      InsSort(counts, items, i, j);
    } else {
      var k := Divide(counts, items, i, j);
      ghost var s := Both(counts, items);
      SortBefore(counts, items, i, k, j);
      ghost var s1 := Both(counts, items);
      WithinWiden(s, s1, i, k, i, j + 1);
      WithinTrans(start, s, s1, i, j + 1);
      SortAfter(counts, items, i, k, j);
      ghost var s2 := Both(counts, items);
      WithinWiden(s1, s2, k + 1, j + 1, i, j + 1);
      WithinTrans(start, s1, s2, i, j + 1);
    }
  }

  /** Sort what comes before the pivot. */
  method SortBefore(counts: array<nat>, items: array<nat>, i: nat, k: nat, j: nat)
    requires counts != items && counts.Length == items.Length && i <= k <= j < counts.Length
    requires Divided(Both(counts, items), i, k, j) && Fenced(Both(counts, items), i, j)
    modifies counts, items
    ensures Within(old(Both(counts, items)), Both(counts, items), i, k)
    ensures Divided(Both(counts, items), i, k, j) && Fenced(Both(counts, items), i, j)
    ensures Falling(Both(counts, items), i, k + 1)
    decreases j - i, 0
  {
    hide *;
    ghost var s := Both(counts, items);
    DividedFences(s, i, k, j);
    if k - i > 1 {
      Sort(counts, items, i, k - 1);
    } else {
      WithinSame(s, i, k);
      FewFall(s, i, k);
    }
    FirstSorted(s, Both(counts, items), i, k, j);
    WithinWiden(s, Both(counts, items), i, k, i, j + 1);
    FencedWithin(s, Both(counts, items), i, j);
  }

  /** Sort what comes after the pivot. */
  method SortAfter(counts: array<nat>, items: array<nat>, i: nat, k: nat, j: nat)
    requires counts != items && counts.Length == items.Length && i <= k <= j < counts.Length
    requires Divided(Both(counts, items), i, k, j) && Fenced(Both(counts, items), i, j)
    requires Falling(Both(counts, items), i, k + 1)
    modifies counts, items
    ensures Within(old(Both(counts, items)), Both(counts, items), k + 1, j + 1)
    ensures Falling(Both(counts, items), i, j + 1)
    decreases j - i, 0
  {
    hide *;
    ghost var s := Both(counts, items);
    DividedFences(s, i, k, j);
    if j - k > 1 {
      Sort(counts, items, k + 1, j);
    } else {
      WithinSame(s, k + 1, j + 1);
      FewFall(s, k + 1, j + 1);
    }
    SecondSorted(s, Both(counts, items), i, k, j);
  }

  lemma SmallIs()
    ensures SORTHRESH == 9
  {
  }

  lemma FenceSize(s: seq<Pair>, i: nat, j: nat)
    requires Fenced(s, i, j)
    ensures i <= j < |s|
  {
  }

  lemma FewFall(s: seq<Pair>, lo: nat, hi: nat)
    requires lo <= hi <= |s| && hi <= lo + 1
    ensures Falling(s, lo, hi)
  {
  }

  /** The middle element becomes the pivot, at the end. */
  method MiddleToEnd(counts: array<nat>, items: array<nat>, i: nat, j: nat)
    requires counts != items && counts.Length == items.Length && Fenced(Both(counts, items), i, j)
    requires i + 1 < j < counts.Length
    modifies counts, items
    ensures Within(old(Both(counts, items)), Both(counts, items), i, j + 1) && Fenced(Both(counts, items), i, j)
  {
    hide *;
    ghost var start := Both(counts, items);
    var pivotindex := (i + j) / 2;
    WithinExchange(start, pivotindex, j, i, j + 1);
    Swap(counts, items, pivotindex, j);
    FencedWithin(start, Both(counts, items), i, j);
  }

  /** Choose the middle element and put it where it belongs among the elements from i to j. */
  method Divide(counts: array<nat>, items: array<nat>, i: nat, j: nat) returns (k: nat)
    requires counts != items && counts.Length == items.Length && Fenced(Both(counts, items), i, j)
    requires i + 1 < j < counts.Length
    modifies counts, items
    ensures Within(old(Both(counts, items)), Both(counts, items), i, j + 1)
    ensures Divided(Both(counts, items), i, k, j) && Fenced(Both(counts, items), i, j)
    ensures i <= k <= j
  {
    hide *;
    ghost var start := Both(counts, items);
    MiddleToEnd(counts, items, i, j);
    ghost var s := Both(counts, items);
    FenceLeft(s, i, j);
    BothAt(counts, items, j);
    if i > 0 { BothAt(counts, items, i - 1); }
    k := Partition(counts, items, i - 1, j, counts[j]);
    ghost var s1 := Both(counts, items);
    WithinWiden(s, s1, i, j, i, j + 1);
    WithinTrans(start, s, s1, i, j + 1);
    PivotToPlace(counts, items, i, k, j, start);
  }

  /** The pivot goes between the two parts. */
  method PivotToPlace(counts: array<nat>, items: array<nat>, ghost i: nat, k: nat, j: nat, ghost start: seq<Pair>)
    requires counts != items && counts.Length == items.Length && i <= k <= j < counts.Length
    requires Fenced(start, i, j) && Within(start, Both(counts, items), i, j + 1)
    requires AtLeast(Both(counts, items), i, k, counts[j]) && AtMost(Both(counts, items), k, j, counts[j])
    modifies counts, items
    ensures Within(start, Both(counts, items), i, j + 1)
    ensures Divided(Both(counts, items), i, k, j) && Fenced(Both(counts, items), i, j)
  {
    hide *;
    ghost var s := Both(counts, items);
    WithinExchange(s, k, j, i, j + 1);
    BothAt(counts, items, j);
    PivotPlaced(s, i, k, j, counts[j]);
    Swap(counts, items, k, j);
    WithinTrans(start, s, Both(counts, items), i, j + 1);
    FencedWithin(start, Both(counts, items), i, j);
  }

  lemma FenceLeft(s: seq<Pair>, i: nat, j: nat)
    requires Fenced(s, i, j)
    ensures i <= j < |s| && (i > 0 ==> s[i - 1].0 >= s[j].0)
  {
  }
}
