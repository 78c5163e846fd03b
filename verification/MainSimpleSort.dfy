/**
 * `mainGtU`, which compares two rotations by bytes and quadrants, and `mainSimpleSort`, the Shell sort built on it.
 * Positions are read in an array that repeats the beginning of the block after its end.
 */
module MainSimpleSort {
  import opened Base
  import opened Rotations
  import opened BurrowsWheeler
  import opened Rearrange
  import opened FallbackQSort

  const BZ_N_OVERSHOOT := 34

  /** The deepest byte at which a small bucket is still compared: two radix bytes, twelve of quicksort, and one. */
  const MAX_DEPTH := 15

  /** The block, and its first 34 bytes again; quadrants likewise. */
  ghost predicate Overshot(b: seq<byte>, over: seq<byte>, quad: seq<int>) {
    && BZ_N_OVERSHOOT < |b| && |over| == |quad| == |b| + BZ_N_OVERSHOOT && over[..|b|] == b
    && forall i :: 0 <= i < BZ_N_OVERSHOOT ==> Repeated(over, quad, |b|, i)
  }

  ghost predicate Repeated(over: seq<byte>, quad: seq<int>, n: nat, i: int)
    requires |over| == |quad| == n + BZ_N_OVERSHOOT && BZ_N_OVERSHOOT <= n && 0 <= i < BZ_N_OVERSHOOT
  {
    over[n + i] == over[i] && quad[n + i] == quad[i]
  }

  /** Of two positions with the same byte, the one with the lower quadrant does not come later. */
  ghost predicate QuadrantsHold(b: seq<byte>, quad: seq<int>, rank: seq<int>) {
    |rank| == |b| <= |quad|
    && forall x, y :: 0 <= x < |b| && 0 <= y < |b| && b[x] == b[y] && quad[x] < quad[y] ==> rank[x] <= rank[y]
  }

  ghost predicate Comparable(b: seq<byte>, over: seq<byte>, quad: seq<int>) {
    Overshot(b, over, quad) && QuadrantsHold(b, quad, Keys(b))
  }

  function Wrap(n: nat, i: int): (x: int)
    requires 0 <= i < 2 * n
    ensures 0 <= x < n
  {
    if i < n then i else i - n
  }

  lemma OverAt(b: seq<byte>, over: seq<byte>, quad: seq<int>, i: int)
    requires Overshot(b, over, quad) && 0 <= i < |over|
    ensures i < 2 * |b| && over[i] == b[Wrap(|b|, i)] && quad[i] == quad[Wrap(|b|, i)]
    ensures i + 1 < 2 * |b| && Wrap(|b|, i + 1) == Next(|b|, Wrap(|b|, i))
  {
    if i >= |b| { assert Repeated(over, quad, |b|, i - |b|); }
  }

  // ------------------------------------------------------------ comparing two rotations

  /**
   * The rotations at x0 and y0 agree on `m` bytes, and from there on on those at x and y it depends which comes first.
   */
  ghost predicate Agree(b: seq<byte>, x0: int, y0: int, x: int, y: int, m: nat) {
    && 0 <= x0 < |b| && 0 <= y0 < |b| && 0 <= x < |b| && 0 <= y < |b|
    && x == Advance(|b|, x0, m) && y == Advance(|b|, y0, m) && Window(b, x0, m) == Window(b, y0, m)
    && (Keys(b)[x0] <= Keys(b)[y0] <==> Keys(b)[x] <= Keys(b)[y])
    && (Keys(b)[y0] <= Keys(b)[x0] <==> Keys(b)[y] <= Keys(b)[x])
  }

  lemma AgreeStarts(b: seq<byte>, x: int, y: int)
    requires 0 <= x < |b| && 0 <= y < |b|
    ensures Agree(b, x, y, x, y, 0)
  {
  }

  lemma {:induction false} AdvanceLast(n: nat, j: int, h: nat)
    requires 0 <= j < n
    ensures Advance(n, j, h + 1) == Next(n, Advance(n, j, h))
    decreases h
  {
    if h > 0 {
      AdvanceLast(n, Next(n, j), h - 1);
    }
  }

  lemma AgreeOn(b: seq<byte>, x0: int, y0: int, x: int, y: int, m: nat)
    requires Agree(b, x0, y0, x, y, m) && b[x] == b[y]
    ensures Agree(b, x0, y0, Next(|b|, x), Next(|b|, y), m + 1)
  {
    KeysRank(b);
    assert RanksMove(b, Keys(b), x, y) && RanksMove(b, Keys(b), y, x);
    WindowLast(b, x0, m);
    WindowLast(b, y0, m);
    AdvanceLast(|b|, x0, m);
    AdvanceLast(|b|, y0, m);
    hide Keys, Window, Advance;
  }

  /** A difference in bytes decides. */
  lemma BytesDecide(b: seq<byte>, x0: int, y0: int, x: int, y: int, m: nat)
    requires Agree(b, x0, y0, x, y, m)
    ensures b[x] > b[y] ==> Keys(b)[y0] <= Keys(b)[x0]
    ensures b[x] < b[y] ==> Keys(b)[x0] <= Keys(b)[y0]
  {
    KeysRank(b);
    assert RanksMove(b, Keys(b), x, y) && RanksMove(b, Keys(b), y, x);
    hide Keys, Window, Advance;
  }

  /** All bytes agree: the rotations are equal. */
  lemma AllAgree(b: seq<byte>, x0: int, y0: int, x: int, y: int, m: nat)
    requires Agree(b, x0, y0, x, y, m) && m >= |b|
    ensures 0 <= x0 < |b| && 0 <= y0 < |b| && Keys(b)[x0] == Keys(b)[y0]
  {
    hide *;
    AgreeWindows(b, x0, y0, x, y, m);
    WindowBegins(b, x0, |b|, m);
    WindowBegins(b, y0, |b|, m);
    EqualKeys(b, x0, y0);
  }

  lemma AgreeWindows(b: seq<byte>, x0: int, y0: int, x: int, y: int, m: nat)
    requires Agree(b, x0, y0, x, y, m)
    ensures 0 <= x0 < |b| && 0 <= y0 < |b| && Window(b, x0, m) == Window(b, y0, m)
  {
    hide Keys, Window, Advance;
  }

  lemma WindowBegins(b: seq<byte>, x: int, h: nat, m: nat)
    requires 0 <= x < |b| && h <= m
    ensures Window(b, x, m)[..h] == Window(b, x, h)
  {
    hide *;
    WindowSplit(b, x, h, m - h);
  }

  lemma EqualKeys(b: seq<byte>, x: int, y: int)
    requires 0 <= x < |b| && 0 <= y < |b| && Window(b, x, |b|) == Window(b, y, |b|)
    ensures Keys(b)[x] == Keys(b)[y]
  {
    hide Window, Code;
  }

  /** The order of rotations, for positions that may lie past the end of the block. */
  ghost predicate NotAfter(b: seq<byte>, i: int, j: int)
    requires 0 <= i < 2 * |b| && 0 <= j < 2 * |b|
  {
    Keys(b)[Wrap(|b|, i)] <= Keys(b)[Wrap(|b|, j)]
  }

  /** `m` bytes from the two starts agree, and the comparison stands at i1 and i2. */
  ghost predicate Compared(b: seq<byte>, over: seq<byte>, quad: seq<int>, i0: int, j0: int, i: int, j: int, m: nat) {
    && Comparable(b, over, quad) && 0 <= i0 < |over| && 0 <= j0 < |over| && 0 <= i < 2 * |b| && 0 <= j < 2 * |b|
    && Agree(b, Wrap(|b|, i0), Wrap(|b|, j0), Wrap(|b|, i), Wrap(|b|, j), m)
  }

  lemma ComparedStarts(b: seq<byte>, over: seq<byte>, quad: seq<int>, i: int, j: int)
    requires Comparable(b, over, quad) && 0 <= i < |b| + MAX_DEPTH && 0 <= j < |b| + MAX_DEPTH
    ensures Compared(b, over, quad, i, j, i, j, 0) && |over| == |quad| == |b| + 34 && |b| > 34
    ensures i < |b| + 15 && j < |b| + 15 && i < 2 * |b| && j < 2 * |b|
  {
    AgreeStarts(b, Wrap(|b|, i), Wrap(|b|, j));
    hide Agree, QuadrantsHold;
  }

  /** One pair of bytes, and of quadrants. */
  lemma ComparedOn(b: seq<byte>, over: seq<byte>, quad: seq<int>, i0: int, j0: int, i: int, j: int, m: nat)
    requires Compared(b, over, quad, i0, j0, i, j, m) && i < |over| && j < |over|
    ensures |over| == |quad| == |b| + BZ_N_OVERSHOOT && i0 < 2 * |b| && j0 < 2 * |b|
    ensures over[i] > over[j] ==> NotAfter(b, j0, i0)
    ensures over[i] < over[j] ==> NotAfter(b, i0, j0)
    ensures over[i] == over[j] && quad[i] > quad[j] ==> NotAfter(b, j0, i0)
    ensures over[i] == over[j] && quad[i] < quad[j] ==> NotAfter(b, i0, j0)
    ensures over[i] == over[j] ==> Compared(b, over, quad, i0, j0, i + 1, j + 1, m + 1)
  {
    OverAt(b, over, quad, i);
    OverAt(b, over, quad, j);
    var (x, y) := (Wrap(|b|, i), Wrap(|b|, j));
    BytesDecide(b, Wrap(|b|, i0), Wrap(|b|, j0), x, y, m);
    if over[i] == over[j] {
      AgreeOn(b, Wrap(|b|, i0), Wrap(|b|, j0), x, y, m);
      QuadrantsDecide(b, quad, Wrap(|b|, i0), Wrap(|b|, j0), x, y, m);
    }
    hide Agree, QuadrantsHold, Keys;
  }

  lemma QuadrantsDecide(b: seq<byte>, quad: seq<int>, x0: int, y0: int, x: int, y: int, m: nat)
    requires Agree(b, x0, y0, x, y, m) && b[x] == b[y] && QuadrantsHold(b, quad, Keys(b))
    ensures quad[x] > quad[y] ==> Keys(b)[y0] <= Keys(b)[x0]
    ensures quad[x] < quad[y] ==> Keys(b)[x0] <= Keys(b)[y0]
  {
    hide Keys, Window, Advance;
  }

  /** Positions past the end are read as positions at the beginning. */
  lemma ComparedWraps(b: seq<byte>, over: seq<byte>, quad: seq<int>, i0: int, j0: int, i: int, j: int, m: nat)
    requires Compared(b, over, quad, i0, j0, i, j, m)
    ensures Compared(b, over, quad, i0, j0, Wrap(|b|, i), Wrap(|b|, j), m)
  {
    hide Agree, QuadrantsHold;
  }

  lemma ComparedAll(b: seq<byte>, over: seq<byte>, quad: seq<int>, i0: int, j0: int, i: int, j: int, m: nat)
    requires Compared(b, over, quad, i0, j0, i, j, m) && m >= |b|
    ensures i0 < 2 * |b| && j0 < 2 * |b| && NotAfter(b, i0, j0)
  {
    AllAgree(b, Wrap(|b|, i0), Wrap(|b|, j0), Wrap(|b|, i), Wrap(|b|, j), m);
    hide Agree, QuadrantsHold;
  }

  lemma Sizes(b: seq<byte>, over: seq<byte>, quad: seq<int>)
    requires Comparable(b, over, quad)
    ensures |over| == |quad| == |b| + 34 && |b| > 34
  {
  }

  /** `count` pairs of bytes, with their quadrants or without; `decided` when a pair differed. */
  method ComparePairs(i1_1: int, i2_1: int, over: seq<byte>, quad: seq<int>, count: nat, quadrants: bool,
      ghost b: seq<byte>, ghost i1_0: int, ghost i2_0: int, ghost m: nat)
    returns (decided: bool, gt: bool, i1: int, i2: int)
    requires Compared(b, over, quad, i1_0, i2_0, i1_1, i2_1, m) && i1_0 < 2 * |b| && i2_0 < 2 * |b|
    requires 0 <= i1_1 && i1_1 + count <= |over| == |quad| && 0 <= i2_1 && i2_1 + count <= |over|
    ensures decided && gt ==> NotAfter(b, i2_0, i1_0)
    ensures decided && !gt ==> NotAfter(b, i1_0, i2_0)
    ensures !decided ==> Compared(b, over, quad, i1_0, i2_0, i1, i2, m + count)
    ensures !decided ==> i1 == i1_1 + count && i2 == i2_1 + count
  {
    hide *;
    i1, i2 := i1_1, i2_1;
    for r := 0 to count
      invariant i1 == i1_1 + r && i2 == i2_1 + r && Compared(b, over, quad, i1_0, i2_0, i1, i2, m + r)
    {
      ComparedOn(b, over, quad, i1_0, i2_0, i1, i2, m + r);
      var c1, c2 := over[i1], over[i2];
      if c1 != c2 { return true, c1 > c2, i1, i2; }
      if quadrants {
        var s1, s2 := quad[i1], quad[i2];
        if s1 != s2 { return true, s1 > s2, i1, i2; }
      }
      i1, i2 := i1 + 1, i2 + 1;
    }
    decided, gt := false, false;
  }

  /** Eight pairs with quadrants, and positions past the end brought back. */
  method Round(i1_1: int, i2_1: int, over: seq<byte>, quad: seq<int>, nblock: int, ghost b: seq<byte>,
      ghost i1_0: int, ghost i2_0: int, ghost m: nat)
    returns (decided: bool, gt: bool, i1: int, i2: int)
    requires Compared(b, over, quad, i1_0, i2_0, i1_1, i2_1, m) && i1_0 < 2 * |b| && i2_0 < 2 * |b|
    requires |over| == |quad| == nblock + 34 && nblock == |b| > 34
    requires 0 <= i1_1 < nblock + 27 && 0 <= i2_1 < nblock + 27
    ensures decided && gt ==> NotAfter(b, i2_0, i1_0)
    ensures decided && !gt ==> NotAfter(b, i1_0, i2_0)
    ensures !decided ==> Compared(b, over, quad, i1_0, i2_0, i1, i2, m + 8)
    ensures !decided ==> 0 <= i1 < nblock + 27 && 0 <= i2 < nblock + 27
  {
    hide *;
    decided, gt, i1, i2 := ComparePairs(i1_1, i2_1, over, quad, 8, true, b, i1_0, i2_0, m);
    if decided { return; }
    ComparedWraps(b, over, quad, i1_0, i2_0, i1, i2, m + 8);
    WrapIs(nblock, i1);
    WrapIs(nblock, i2);
    if i1 >= nblock { i1 := i1 - nblock; }
    if i2 >= nblock { i2 := i2 - nblock; }
  }

  /** The rounds of eight, until more bytes than there are have been compared. */
  method Rounds(i1_1: int, i2_1: int, over: seq<byte>, quad: seq<int>, nblock: int, budget0: int, ghost b: seq<byte>,
      ghost i1_0: int, ghost i2_0: int)
    returns (gt: bool, budget: int)
    requires Compared(b, over, quad, i1_0, i2_0, i1_1, i2_1, 12) && i1_0 < 2 * |b| && i2_0 < 2 * |b|
    requires |over| == |quad| == nblock + 34 && nblock == |b| > 34
    requires 0 <= i1_1 < nblock + 27 && 0 <= i2_1 < nblock + 27
    ensures gt ==> NotAfter(b, i2_0, i1_0)
    ensures !gt ==> NotAfter(b, i1_0, i2_0)
    ensures budget <= budget0
  {
    hide *;
    var (i1, i2, k) := (i1_1, i2_1, nblock + 8);
    budget := budget0;
    while k >= 0
      invariant nblock + 20 - k >= 12 && Compared(b, over, quad, i1_0, i2_0, i1, i2, nblock + 20 - k)
      invariant 0 <= i1 < nblock + 27 && 0 <= i2 < nblock + 27 && budget <= budget0
      decreases k
    {
      var decided;
      decided, gt, i1, i2 := Round(i1, i2, over, quad, nblock, b, i1_0, i2_0, nblock + 20 - k);
      if decided { return; }
      k := k - 8;
      budget := budget - 1;
    }
    ComparedAll(b, over, quad, i1_0, i2_0, i1, i2, nblock + 20 - k);
    gt := false;
  }

  /**
   * `mainGtU`. True means that the rotation at i1 does not come before the one at i2, false that it does not come after
   * it. No position read lies past the repeated bytes. The budget is drawn on only if twelve bytes agree.
   */
  method MainGtU(i1: int, i2: int, over: seq<byte>, quad: seq<int>, nblock: int, budget0: int, ghost b: seq<byte>)
    returns (gt: bool, budget: int)
    requires Comparable(b, over, quad) && nblock == |b| && 0 <= i1 < nblock + MAX_DEPTH && 0 <= i2 < nblock + MAX_DEPTH
    ensures i1 < 2 * |b| && i2 < 2 * |b|
    ensures gt ==> NotAfter(b, i2, i1)
    ensures !gt ==> NotAfter(b, i1, i2)
    ensures budget == budget0 || (budget <= budget0 && SameTwelve(b, Wrap(nblock, i1), Wrap(nblock, i2)))
  {
    hide *;
    budget := budget0;
    ComparedStarts(b, over, quad, i1, i2);
    var decided, j1, j2;
    decided, gt, j1, j2 := ComparePairs(i1, i2, over, quad, 12, false, b, i1, i2, 0);
    if !decided {
      TwelveAgree(b, over, quad, i1, i2, j1, j2);
      gt, budget := Rounds(j1, j2, over, quad, nblock, budget, b, i1, i2);
    }
  }

  /** The twelve bytes from two positions on are the same. */
  ghost predicate SameTwelve(b: seq<byte>, x: int, y: int) {
    0 <= x < |b| && 0 <= y < |b| && Window(b, x, 12) == Window(b, y, 12)
  }

  /** Somewhere in the block, read as a ring, twelve bytes occur twice. */
  ghost predicate Repeats(b: seq<byte>) {
    exists x, y :: x != y && SameTwelve(b, x, y)
  }

  /** A budget is drawn on only for a block in which twelve bytes occur twice. */
  ghost predicate Spent(b: seq<byte>, budget0: int, budget: int) {
    budget <= budget0 && (budget < budget0 ==> Repeats(b))
  }

  lemma SpentOn(b: seq<byte>, x: int, y: int, z: int)
    ensures Spent(b, x, x) && (Spent(b, x, y) && Spent(b, y, z) ==> Spent(b, x, z))
  {
    hide Repeats;
  }

  lemma TwelveAgree(b: seq<byte>, over: seq<byte>, quad: seq<int>, i0: int, j0: int, i: int, j: int)
    requires Compared(b, over, quad, i0, j0, i, j, 12)
    ensures 0 <= i0 < 2 * |b| && 0 <= j0 < 2 * |b| && SameTwelve(b, Wrap(|b|, i0), Wrap(|b|, j0))
  {
    hide Comparable, Keys, Window, Advance;
  }

  lemma WrapIs(n: nat, i: int)
    requires 0 <= i < 2 * n
    ensures Wrap(n, i) == if i < n then i else i - n
  {
  }

  // ------------------------------------------------------------ Shell sort

  /** The rank of every position's rotation from its byte `d` on. */
  ghost function DepthKeys(b: seq<byte>, d: nat): (e: seq<int>)
    requires d < |b|
    ensures |e| == |b| && forall x :: 0 <= x < |b| ==> e[x] == Keys(b)[Wrap(|b|, x + d)]
  {
    seq(|b|, x requires 0 <= x < |b| => Keys(b)[Wrap(|b|, x + d)])
  }

  /**
   * The entry that was at `i` now stands at `j`; the entries between, none of them below it, have moved up one place.
   */
  ghost predicate Lifted(f: seq<int>, v: seq<int>, e: seq<int>, i: int, j: int) {
    && Indexes(f, e) && |v| == |f| && 0 <= j <= i < |f|
    && v[j] == f[i]
    && (forall k :: j < k <= i ==> v[k] == f[k - 1])
    && (forall k :: j <= k < i ==> e[f[k]] >= e[f[i]])
    && (forall k :: 0 <= k < |f| && !(j <= k <= i) ==> v[k] == f[k])
  }

  lemma LiftedFurther(f: seq<int>, v: seq<int>, e: seq<int>, i: int, j: int)
    requires Lifted(f, v, e, i, j) && j > 0 && e[f[j - 1]] >= e[f[i]]
    ensures Lifted(f, Swapped(v, j, j - 1), e, i, j - 1)
  {
  }

  lemma LiftedSorted(f: seq<int>, v: seq<int>, e: seq<int>, lo: int, i: int, j: int)
    requires Lifted(f, v, e, i, j) && Indexes(v, e) && 0 <= lo <= j && SortedBy(f, e, lo, i - 1)
    requires j > lo ==> e[f[j - 1]] <= e[f[i]]
    ensures SortedBy(v, e, lo, i)
  {
    forall x, y | lo <= x <= y <= i ensures KeyAt(v, e, x) <= KeyAt(v, e, y) {
      var x' := if x < j then x else if x == j then i else x - 1;
      var y' := if y < j then y else if y == j then i else y - 1;
      assert v[x] == f[x'] && v[y] == f[y'];
      if x < j <= y {
        assert KeyAt(f, e, x) <= KeyAt(f, e, j - 1);
        if y > j { assert KeyAt(f, e, x) <= KeyAt(f, e, y'); }
      } else if x == j < y {
        assert e[f[y']] >= e[f[i]];
      } else {
        assert x < y ==> KeyAt(f, e, x') <= KeyAt(f, e, y');
      }
    }
  }

  /** What the array would hold if the entry being moved were put into the hole at `j`. */
  ghost predicate Raised(f: seq<int>, v: seq<int>, e: seq<int>, lo: int, hi: int, h: int, i: int, j: int) {
    && Indexes(f, e) && Indexes(v, e) && 0 <= lo <= j <= i <= hi < |f| && h >= 1
    && Rearranged(f, v, lo, hi) && v[j] == f[i]
    && (forall k :: 0 <= k < j ==> v[k] == f[k])
    && (h == 1 ==> Lifted(f, v, e, i, j))
  }

  lemma RaisedStarts(f: seq<int>, e: seq<int>, lo: int, hi: int, h: int, i: int)
    requires Indexes(f, e) && 0 <= lo <= i <= hi < |f| && h >= 1
    ensures Raised(f, f, e, lo, hi, h, i, i) && HoleAt(f, f, i, f[i])
  {
  }

  lemma RaisedFurther(f: seq<int>, v: seq<int>, e: seq<int>, lo: int, hi: int, h: int, i: int, j: int)
    requires Raised(f, v, e, lo, hi, h, i, j) && lo + h <= j && e[f[j - h]] >= e[f[i]]
    ensures |v| == |f| && Raised(f, Swapped(v, j, j - h), e, lo, hi, h, i, j - h)
  {
    hide Rearranged, Lifted;
    SameLength(f, v, lo, hi);
    SwapRearranges(v, j, j - h, lo, hi);
    RearrangedTwice(f, v, Swapped(v, j, j - h), lo, hi);
    RearrangedIndexes(v, Swapped(v, j, j - h), e, lo, hi);
    if h == 1 { LiftedFurther(f, v, e, i, j); }
  }

  lemma RaisedAt(f: seq<int>, v: seq<int>, e: seq<int>, lo: int, hi: int, h: int, i: int, j: int, s: seq<int>)
    requires Raised(f, v, e, lo, hi, h, i, j) && HoleAt(s, v, j, f[i])
    ensures |s| == |v| == |f| && 0 <= lo <= j <= i <= hi < |s| && 0 <= f[i] < |e| && Rearranged(f, v, lo, hi)
    ensures forall k :: lo <= k < j ==> s[k] == f[k] && 0 <= s[k] < |e|
  {
    forall k | lo <= k < j ensures s[k] == f[k] && 0 <= s[k] < |e| {
      assert s[j := f[i]][k] == v[k];
    }
  }

  lemma HoleDown(s: seq<int>, v: seq<int>, j: int, k: int, tmp: int)
    requires HoleAt(s, v, j, tmp) && 0 <= k < j < |s|
    ensures |v| == |s| && HoleAt(s[j := s[k]], Swapped(v, j, k), k, tmp)
  {
  }

  lemma RaisedSorted(f: seq<int>, v: seq<int>, e: seq<int>, lo: int, hi: int, h: int, i: int, j: int)
    requires Raised(f, v, e, lo, hi, h, i, j) && (j >= lo + h ==> e[f[j - h]] <= e[f[i]])
    requires h == 1 ==> SortedBy(f, e, lo, i - 1)
    ensures |v| == |f| && Indexes(v, e) && Rearranged(f, v, lo, hi)
    ensures h == 1 ==> SortedBy(v, e, lo, i)
  {
    if h == 1 { LiftedSorted(f, v, e, lo, i, j); }
  }

  /** Positions at depth `d` compared. */
  lemma AtDepth(b: seq<byte>, d: nat, x: int, y: int)
    requires d < |b| && 0 <= x < |b| && 0 <= y < |b|
    ensures x + d < 2 * |b| && y + d < 2 * |b|
    ensures NotAfter(b, x + d, y + d) <==> DepthKeys(b, d)[x] <= DepthKeys(b, d)[y]
  {
  }

  /** What the sort works with: entries are positions of the block, compared from their byte `d` on. */
  ghost predicate Sortable(b: seq<byte>, over: seq<byte>, quad: seq<int>, nblock: int, d: int, p: seq<int>) {
    Comparable(b, over, quad) && nblock == |b| && 0 <= d <= MAX_DEPTH && Indexes(p, b) && Apart(p)
  }

  lemma SortableAt(b: seq<byte>, over: seq<byte>, quad: seq<int>, nblock: int, d: int, p: seq<int>)
    requires Sortable(b, over, quad, nblock, d, p)
    ensures Comparable(b, over, quad) && nblock == |b| && 0 <= d < |b| && Indexes(p, DepthKeys(b, d))
    ensures forall k :: 0 <= k < |p| ==> 0 <= p[k] < |b| && 0 <= p[k] + d < nblock + MAX_DEPTH
    ensures forall i, j :: 0 <= i < j < |p| ==> p[i] != p[j]
  {
  }

  /** `mainGtU` on two entries, from their byte `d` on. */
  method GreaterAt(x: int, y: int, d: int, over: seq<byte>, quad: seq<int>, nblock: int, budget0: int,
      ghost b: seq<byte>)
    returns (gt: bool, budget: int)
    requires Comparable(b, over, quad) && nblock == |b| && 0 <= d < |b| && 0 <= x < |b| && 0 <= y < |b|
    requires 0 <= x + d < nblock + MAX_DEPTH && 0 <= y + d < nblock + MAX_DEPTH
    ensures gt ==> DepthKeys(b, d)[y] <= DepthKeys(b, d)[x]
    ensures !gt ==> DepthKeys(b, d)[x] <= DepthKeys(b, d)[y]
    ensures x != y ==> Spent(b, budget0, budget)
  {
    hide *;
    AtDepth(b, d, x, y);
    AtDepth(b, d, y, x);
    gt, budget := MainGtU(x + d, y + d, over, quad, nblock, budget0, b);
    if x != y { DrawnOn(b, x, y, d, budget0, budget); }
  }

  lemma DrawnOn(b: seq<byte>, x: int, y: int, d: int, budget0: int, budget: int)
    requires 0 <= x < |b| && 0 <= y < |b| && x != y && 0 <= d < |b|
    requires budget == budget0 || (budget <= budget0 && SameTwelve(b, Wrap(|b|, x + d), Wrap(|b|, y + d)))
    ensures Spent(b, budget0, budget)
  {
    assert Wrap(|b|, x + d) != Wrap(|b|, y + d);
    hide Wrap, SameTwelve;
  }

  /** One entry moves up over the hole, which moves down. */
  method MoveUp(ptr: array<int>, j: int, h: int, ghost f: seq<int>, ghost w0: seq<int>, ghost e: seq<int>,
      ghost lo: int,
      ghost hi: int, ghost i: int)
    returns (ghost w: seq<int>)
    requires 0 <= lo && lo + h <= j && h >= 1 && 0 <= i < |f| && Raised(f, w0, e, lo, hi, h, i, j)
    requires HoleAt(ptr[..], w0, j, f[i])
    requires 0 <= j - h < |f| && 0 <= f[j - h] < |e| && 0 <= f[i] < |e| && e[f[j - h]] >= e[f[i]]
    modifies ptr
    ensures Raised(f, w, e, lo, hi, h, i, j - h) && HoleAt(ptr[..], w, j - h, f[i])
  {
    hide *;
    RaisedAt(f, w0, e, lo, hi, h, i, j, ptr[..]);
    RaisedFurther(f, w0, e, lo, hi, h, i, j);
    HoleDown(ptr[..], w0, j, j - h, f[i]);
    ghost var s := ptr[..];
    ptr[j] := ptr[j - h];
    assert ptr[..] == s[j := s[j - h]];
    w := Swapped(w0, j, j - h);
  }

  /** Whether the entry `h` places above the hole is greater than the one being moved. */
  method EntryGreater(ptr: array<int>, over: seq<byte>, quad: seq<int>, nblock: int, lo: int, hi: int, h: int, i: int,
      j: int, v: int, d: int, budget0: int, ghost b: seq<byte>, ghost f: seq<int>, ghost w: seq<int>)
    returns (gt: bool, budget: int)
    requires Sortable(b, over, quad, nblock, d, f) && 0 <= d < |b| && 0 <= lo && lo + h <= j && h >= 1
    requires Raised(f, w, DepthKeys(b, d), lo, hi, h, i, j) && HoleAt(ptr[..], w, j, f[i]) && 0 <= i < |f| && v == f[i]
    ensures 0 <= j - h < |f| && 0 <= f[j - h] < |b| && 0 <= f[i] < |b|
    ensures gt ==> DepthKeys(b, d)[f[i]] <= DepthKeys(b, d)[f[j - h]]
    ensures !gt ==> DepthKeys(b, d)[f[j - h]] <= DepthKeys(b, d)[f[i]]
    ensures Spent(b, budget0, budget)
  {
    hide *;
    RaisedAt(f, w, DepthKeys(b, d), lo, hi, h, i, j, ptr[..]);
    SortableAt(b, over, quad, nblock, d, f);
    assert ptr[..][j - h] == ptr[j - h] == f[j - h];
    gt, budget := GreaterAt(ptr[j - h], v, d, over, quad, nblock, budget0, b);
  }

  /** The entry at `i` moves down past larger ones, `h` places at a time. */
  method Insert(ptr: array<int>, over: seq<byte>, quad: seq<int>, nblock: int, lo: int, hi: int, h: int, i: int, d: int,
      budget0: int, ghost b: seq<byte>)
    returns (budget: int)
    requires Sortable(b, over, quad, nblock, d, ptr[..]) && 0 <= lo && lo + h <= i <= hi < ptr.Length && h >= 1
    requires d < |b| && Indexes(ptr[..], DepthKeys(b, d))
    requires h == 1 ==> SortedBy(ptr[..], DepthKeys(b, d), lo, i - 1)
    modifies ptr
    ensures Rearranged(old(ptr[..]), ptr[..], lo, hi) && Indexes(ptr[..], DepthKeys(b, d))
    ensures h == 1 ==> SortedBy(ptr[..], DepthKeys(b, d), lo, i)
    ensures Spent(b, budget0, budget)
  {
    ghost var f, e := ptr[..], DepthKeys(b, d);
    hide *;
    SortableAt(b, over, quad, nblock, d, f);
    var v := ptr[i];
    var j := i;
    budget := budget0;
    ghost var w := f;
    RaisedStarts(f, e, lo, hi, h, i);
    SpentOn(b, budget, budget, budget);
    while j >= lo + h
      invariant Spent(b, budget0, budget)
      invariant lo <= j <= i && Raised(f, w, e, lo, hi, h, i, j) && HoleAt(ptr[..], w, j, f[i])
      decreases j
    {
      var gt;
      ghost var left := budget;
      gt, budget := EntryGreater(ptr, over, quad, nblock, lo, hi, h, i, j, v, d, budget, b, f, w);
      SpentOn(b, budget0, left, budget);
      if !gt { break; }
      w := MoveUp(ptr, j, h, f, w, e, lo, hi, i);
      j := j - h;
    }
    FillHole(ptr, j, v, f, w, e, lo, hi, h, i);
  }

  /** The entry being moved goes into the hole. */
  method FillHole(ptr: array<int>, j: int, v: int, ghost f: seq<int>, ghost w: seq<int>, ghost e: seq<int>,
      ghost lo: int,
      ghost hi: int, ghost h: int, ghost i: int)
    requires 0 <= lo <= j <= i < |f| && Raised(f, w, e, lo, hi, h, i, j) && HoleAt(ptr[..], w, j, f[i]) && v == f[i]
    requires j >= lo + h ==> 0 <= j - h && 0 <= f[j - h] < |e| && 0 <= f[i] < |e| && e[f[j - h]] <= e[f[i]]
    requires h == 1 ==> Indexes(f, e) && SortedBy(f, e, lo, i - 1)
    modifies ptr
    ensures Rearranged(f, ptr[..], lo, hi) && Indexes(ptr[..], e) && i < ptr.Length
    ensures h == 1 ==> SortedBy(ptr[..], e, lo, i)
  {
    hide *;
    RaisedAt(f, w, e, lo, hi, h, i, j, ptr[..]);
    HoleFilled(ptr[..], w, j, v);
    ghost var s := ptr[..];
    ptr[j] := v;
    assert ptr[..] == s[j := v];
    RaisedSorted(f, w, e, lo, hi, h, i, j);
  }

  lemma StillSortable(b: seq<byte>, over: seq<byte>, quad: seq<int>, nblock: int, d: int, p: seq<int>, q: seq<int>,
      lo: int, hi: int)
    requires Sortable(b, over, quad, nblock, d, p) && d < |b| && Indexes(q, DepthKeys(b, d))
    requires Rearranged(p, q, lo, hi) && 0 <= lo && hi < |p|
    ensures Sortable(b, over, quad, nblock, d, q)
  {
    ApartStays(p, q, lo, hi);
    hide Rearranged, Apart, Comparable;
  }

  /** One increment: three entries at a time, then a look at the budget. */
  method OneIncrement(ptr: array<int>, over: seq<byte>, quad: seq<int>, nblock: int, lo: int, hi: int, h: int, d: int,
      budget0: int, ghost b: seq<byte>)
    returns (budget: int, done: bool)
    requires Sortable(b, over, quad, nblock, d, ptr[..]) && 0 <= lo <= hi < ptr.Length && h >= 1
    requires d < |b| && Indexes(ptr[..], DepthKeys(b, d))
    modifies ptr
    ensures Rearranged(old(ptr[..]), ptr[..], lo, hi) && Indexes(ptr[..], DepthKeys(b, d))
    ensures Sortable(b, over, quad, nblock, d, ptr[..])
    ensures !done ==> budget < 0
    ensures done && h == 1 ==> SortedBy(ptr[..], DepthKeys(b, d), lo, hi)
    ensures Spent(b, budget0, budget)
  {
    ghost var f, e := ptr[..], DepthKeys(b, d);
    OneSorted(f, e, lo);
    RearrangedSame(f, lo, hi);
    hide *;
    budget := budget0;
    var i, copies := lo + h, 0;
    SpentOn(b, budget, budget, budget);
    while i <= hi
      invariant Spent(b, budget0, budget)
      invariant lo + h <= i && Rearranged(f, ptr[..], lo, hi) && Indexes(ptr[..], e)
      invariant Sortable(b, over, quad, nblock, d, ptr[..])
      invariant h == 1 ==> i <= hi + 1 && SortedBy(ptr[..], e, lo, i - 1)
      decreases hi - i
    {
      ghost var g := ptr[..];
      ghost var left := budget;
      budget := Insert(ptr, over, quad, nblock, lo, hi, h, i, d, budget, b);
      RearrangedTwice(f, g, ptr[..], lo, hi);
      StillSortable(b, over, quad, nblock, d, g, ptr[..], lo, hi);
      SpentOn(b, budget0, left, budget);
      i, copies := i + 1, copies + 1;
      if copies == 3 {
        if budget < 0 { return budget, false; }
        copies := 0;
      }
    }
    done := true;
  }

  lemma OneSorted(f: seq<int>, e: seq<int>, lo: int)
    requires Indexes(f, e) && 0 <= lo < |f|
    ensures SortedBy(f, e, lo, lo)
  {
  }

  /** `incs`. */
  const INCS: seq<int> := [1, 4, 13, 40, 121, 364, 1093, 3280, 9841, 29524, 88573, 265720, 797161, 2391484]

  /**
   * `mainSimpleSort`: the interval is rearranged and, unless the budget is used up, sorted by the rotations from byte
   * `d` on.
   */
  method MainSimpleSort(ptr: array<int>, over: seq<byte>, quad: seq<int>, nblock: int, lo: int, hi: int, d: int,
      budget0: int, ghost b: seq<byte>)
    returns (budget: int)
    requires Sortable(b, over, quad, nblock, d, ptr[..]) && 0 <= lo <= hi + 1 <= ptr.Length <= 2000000
    requires d < |b| && Indexes(ptr[..], DepthKeys(b, d))
    modifies ptr
    ensures Rearranged(old(ptr[..]), ptr[..], lo, hi) && Indexes(ptr[..], DepthKeys(b, d))
    ensures Sortable(b, over, quad, nblock, d, ptr[..])
    ensures budget >= 0 ==> SortedBy(ptr[..], DepthKeys(b, d), lo, hi)
    ensures Spent(b, budget0, budget)
  {
    ghost var f, e := ptr[..], DepthKeys(b, d);
    RearrangedSame(f, lo, hi);
    budget := budget0;
    var bigN := hi - lo + 1;
    if bigN < 2 { return; }
    var hp := 0;
    while INCS[hp] < bigN
      invariant 0 <= hp < 14 && (hp > 0 ==> INCS[hp - 1] < bigN)
      decreases 14 - hp
    {
      hp := hp + 1;
    }
    hp := hp - 1;
    hide Sortable, Rearranged, Indexes, SortedBy, DepthKeys, Spent;
    SpentOn(b, budget, budget, budget);
    while hp >= 0
      invariant -1 <= hp < 14 && Rearranged(f, ptr[..], lo, hi) && Indexes(ptr[..], e)
      invariant Sortable(b, over, quad, nblock, d, ptr[..]) && Spent(b, budget0, budget)
      invariant hp == -1 ==> SortedBy(ptr[..], e, lo, hi)
    {
      ghost var g := ptr[..];
      var done;
      ghost var left := budget;
      budget, done := OneIncrement(ptr, over, quad, nblock, lo, hi, INCS[hp], d, budget, b);
      RearrangedTwice(f, g, ptr[..], lo, hi);
      SpentOn(b, budget0, left, budget);
      if !done { return; }
      hp := hp - 1;
    }
  }
}
