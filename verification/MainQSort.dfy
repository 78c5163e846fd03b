/** `mainQSort3`: multikey quicksort of a small bucket, byte by byte, with an explicit stack. */
module MainQSort {
  import opened Base
  import opened Rotations
  import opened BurrowsWheeler
  import opened Rearrange
  import opened FallbackQSort
  import opened MainSimpleSort

  const MAIN_QSORT_SMALL_THRESH := 20
  const MAIN_QSORT_DEPTH_THRESH := 14
  const MAIN_QSORT_STACK_SIZE := 100

  /** An interval, and how many bytes its rotations are known to share. */
  datatype Task = Task(lo: int, hi: int, d: int) {
    function Size(): int { hi - lo + 1 }
    function Place(): Interval { Interval(lo, hi) }
  }

  // ------------------------------------------------------------ shared beginnings

  ghost predicate Shares(b: seq<byte>, p: seq<int>, lo: int, hi: int, d: nat)
    requires Indexes(p, b) && 0 <= lo && hi < |p|
  {
    forall i, j :: lo <= i <= hi && lo <= j <= hi ==> SameBytes(b, p[i], p[j], d)
  }

  ghost predicate SameBytes(b: seq<byte>, x: int, y: int, d: nat)
    requires 0 <= x < |b| && 0 <= y < |b|
  {
    Window(b, x, d) == Window(b, y, d)
  }

  lemma {:induction false} AgreeFrom(b: seq<byte>, x: int, y: int, d: nat)
    requires 0 <= x < |b| && 0 <= y < |b| && SameBytes(b, x, y, d)
    ensures Agree(b, x, y, Advance(|b|, x, d), Advance(|b|, y, d), d)
  {
    if d == 0 {
      AgreeStarts(b, x, y);
    } else {
      WindowLast(b, x, d - 1);
      WindowLast(b, y, d - 1);
      AdvanceLast(|b|, x, d - 1);
      AdvanceLast(|b|, y, d - 1);
      assert Window(b, x, d)[..d - 1] == Window(b, x, d - 1) && Window(b, y, d)[..d - 1] == Window(b, y, d - 1);
      AgreeFrom(b, x, y, d - 1);
      AgreeOn(b, x, y, Advance(|b|, x, d - 1), Advance(|b|, y, d - 1), d - 1);
    }
  }

  /** The byte at depth `d` of every position. */
  function DepthBytes(over: seq<byte>, n: nat, d: nat): (e: seq<int>)
    requires n + d <= |over|
    ensures |e| == n && forall x :: 0 <= x < n ==> e[x] == over[x + d] as int
  {
    seq(n, x requires 0 <= x < n => over[x + d] as int)
  }

  lemma IsOvershot(b: seq<byte>, over: seq<byte>, quad: seq<int>)
    requires Comparable(b, over, quad)
    ensures Overshot(b, over, quad)
  {
  }

  /** Reading past the end of the block is going round it. */
  lemma AtAdvance(b: seq<byte>, over: seq<byte>, quad: seq<int>, d: nat, x: int)
    requires Comparable(b, over, quad) && d <= MAX_DEPTH && 0 <= x < |b|
    ensures d < |b| && |b| + d <= |over|
    ensures DepthBytes(over, |b|, d)[x] == b[Advance(|b|, x, d)] as int
    ensures DepthKeys(b, d)[x] == Keys(b)[Advance(|b|, x, d)]
  {
    hide Keys, QuadrantsHold, Advance, Overshot, Comparable, Repeated, DepthBytes, DepthKeys;
    Sizes(b, over, quad);
    IsOvershot(b, over, quad);
    AdvanceIsShift(|b|, x, d);
    OverAt(b, over, quad, x + d);
  }

  /** Rotations that share `d` bytes: the next byte decides, or the rotations from there on do. */
  lemma DepthDecides(b: seq<byte>, over: seq<byte>, quad: seq<int>, d: nat, x: int, y: int)
    requires Comparable(b, over, quad) && d <= MAX_DEPTH && 0 <= x < |b| && 0 <= y < |b| && SameBytes(b, x, y, d)
    ensures d < |b| && |b| + d <= |over|
    ensures var e := DepthBytes(over, |b|, d);
            && (e[x] < e[y] ==> Keys(b)[x] <= Keys(b)[y])
            && (e[x] == e[y] ==> SameBytes(b, x, y, d + 1))
    ensures DepthKeys(b, d)[x] <= DepthKeys(b, d)[y] ==> Keys(b)[x] <= Keys(b)[y]
  {
    hide *;
    AtAdvance(b, over, quad, d, x);
    AtAdvance(b, over, quad, d, y);
    var (i, j) := (Advance(|b|, x, d), Advance(|b|, y, d));
    AgreeFrom(b, x, y, d);
    BytesDecide(b, x, y, i, j, d);
    AgreeOrder(b, x, y, i, j, d);
    SameBytesOn(b, x, y, d);
  }

  lemma AgreeOrder(b: seq<byte>, x0: int, y0: int, x: int, y: int, m: nat)
    requires Agree(b, x0, y0, x, y, m)
    ensures 0 <= x0 < |b| && 0 <= y0 < |b| && 0 <= x < |b| && 0 <= y < |b|
    ensures Keys(b)[x] <= Keys(b)[y] ==> Keys(b)[x0] <= Keys(b)[y0]
  {
    hide Keys, Window, Advance;
  }

  lemma SameBytesOn(b: seq<byte>, x: int, y: int, d: nat)
    requires 0 <= x < |b| && 0 <= y < |b| && SameBytes(b, x, y, d)
    ensures b[Advance(|b|, x, d)] == b[Advance(|b|, y, d)] ==> SameBytes(b, x, y, d + 1)
  {
    WindowLast(b, x, d);
    WindowLast(b, y, d);
    hide Window, Advance;
  }

  lemma SortedFromDepth(b: seq<byte>, over: seq<byte>, quad: seq<int>, d: nat, p: seq<int>, lo: int, hi: int)
    requires Comparable(b, over, quad) && d <= MAX_DEPTH && d < |b| && 0 <= lo && hi < |p|
    requires Indexes(p, b) && Shares(b, p, lo, hi, d)
    requires Indexes(p, DepthKeys(b, d)) && SortedBy(p, DepthKeys(b, d), lo, hi)
    ensures Indexes(p, Keys(b)) && SortedBy(p, Keys(b), lo, hi)
  {
    hide Comparable, Keys, DepthKeys, SameBytes;
    forall i, j | lo <= i <= j <= hi ensures KeyAt(p, Keys(b), i) <= KeyAt(p, Keys(b), j) {
      assert SameBytes(b, p[i], p[j], d);
      assert KeyAt(p, DepthKeys(b, d), i) <= KeyAt(p, DepthKeys(b, d), j);
      DepthDecides(b, over, quad, d, p[i], p[j]);
    }
  }

  /** Rearranging an interval keeps what its rotations share. */
  lemma SharesRearranged(b: seq<byte>, f: seq<int>, g: seq<int>, lo: int, hi: int, d: nat)
    requires Indexes(f, b) && 0 <= lo <= hi + 1 <= |f| && Rearranged(f, g, lo, hi) && Shares(b, f, lo, hi, d)
    ensures |g| == |f| && Indexes(g, b) && Shares(b, g, lo, hi, d)
  {
    SameLength(f, g, lo, hi);
    forall k | 0 <= k < |g| ensures 0 <= g[k] < |b| { assert g[k] in multiset(f); }
    hide Rearranged, SameBytes;
    forall i, j | lo <= i <= hi && lo <= j <= hi ensures SameBytes(b, g[i], g[j], d) {
      var x := CameFrom(f, g, lo, hi, i);
      var y := CameFrom(f, g, lo, hi, j);
    }
  }

  // ------------------------------------------------------------ the explicit stack

  ghost function Places(stk: seq<Task>): (i: seq<Interval>)
    ensures |i| == |stk|
  {
    seq(|stk|, s requires 0 <= s < |stk| => stk[s].Place())
  }

  ghost predicate TaskShares(b: seq<byte>, p: seq<int>, t: Task) {
    Indexes(p, b) && 0 <= t.lo <= t.hi + 1 <= |p| && 0 <= t.d <= MAX_DEPTH && Shares(b, p, t.lo, t.hi, t.d)
  }

  ghost predicate AllShare(b: seq<byte>, p: seq<int>, stk: seq<Task>) {
    forall s :: 0 <= s < |stk| ==> TaskShares(b, p, stk[s])
  }

  /** Binary logarithm, rounded down. */
  function Log(n: int): nat {
    if n <= 1 then 0 else 1 + Log(n / 2)
  }

  lemma {:induction false} LogGrows(a: int, c: int)
    requires a <= c
    ensures Log(a) <= Log(c)
  {
    if a > 1 { LogGrows(a / 2, c / 2); }
  }

  lemma LogHalf(a: int, c: int)
    requires 2 * a <= c && c >= 2
    ensures Log(a) + 1 <= Log(c)
  {
    LogGrows(a, c / 2);
  }

  lemma LogLimit(n: int)
    requires n <= 1000000
    ensures Log(n) <= 19
  {
    LogGrows(n, 1000000);
    LogOver(1000000, 31250, 5);
    LogOver(31250, 976, 5);
    LogOver(976, 30, 5);
    LogOver(30, 1, 4);
  }

  /** Halving `k` times leads from `n` to `m`. */
  lemma {:induction false} LogOver(n: int, m: int, k: nat)
    requires Halved(n, k) == m >= 1
    ensures Log(n) == Log(m) + k
    decreases k
  {
    if k > 0 { LogOver(n / 2, m, k - 1); }
  }

  function Halved(n: int, k: nat): (m: int)
    ensures n <= 0 ==> m <= 0
    decreases k
  {
    if k == 0 then n else Halved(n / 2, k - 1)
  }

  /** The higher an interval lies on the stack, the smaller it is. */
  ghost predicate Heights(stk: seq<Task>, total: int) {
    forall s :: 0 <= s < |stk| ==> stk[s].Size() >= 0 && s + 2 * Log(stk[s].Size()) <= 2 * Log(total)
  }

  /** Work left: it falls with every step. */
  ghost function Work(stk: seq<Task>): nat {
    if stk == [] then 0 else Work(stk[..|stk| - 1]) + Weight(stk[|stk| - 1])
  }

  ghost function Weight(t: Task): (w: nat)
    ensures w >= 1
  {
    if t.Size() <= 0 then 1 else 64 * t.Size() - 40 + Max(0, MAX_DEPTH - t.d)
  }

  /** Everything the sorting loop keeps. */
  ghost predicate Sorting(b: seq<byte>, f0: seq<int>, f: seq<int>, lo: int, hi: int, stk: seq<Task>, owner: seq<int>) {
    && Rearranged(f0, f, lo, hi) && Pending(f, Keys(b), lo, hi, Places(stk), owner) && AllShare(b, f, stk)
    && Heights(stk, hi - lo + 1) && hi - lo + 1 <= 1000000
  }

  lemma SortingStarts(b: seq<byte>, f: seq<int>, t: Task) returns (owner: seq<int>)
    requires TaskShares(b, f, t) && t.Size() <= 1000000
    ensures Sorting(b, f, f, t.lo, t.hi, [t], owner)
  {
    owner := seq(|f|, k => if t.lo <= k <= t.hi then 0 else -1);
    var stk := Places([t]);
    hide Shares, Log, Keys;
    assert stk == [Interval(t.lo, t.hi)];
  }

  lemma SortingTop(b: seq<byte>, f0: seq<int>, f: seq<int>, lo: int, hi: int, stk: seq<Task>, owner: seq<int>)
    requires Sorting(b, f0, f, lo, hi, stk, owner)
    ensures Indexes(f, Keys(b)) && |f| == |f0| && Rearranged(f0, f, lo, hi) && 0 <= lo <= hi + 1 <= |f|
    ensures stk != [] ==> var t := stk[|stk| - 1];
            TaskShares(b, f, t) && Indexes(f, b) && lo <= t.lo <= t.hi + 1 <= hi + 1 && 0 <= t.d <= MAX_DEPTH
    ensures stk == [] ==> SortedBy(f, Keys(b), lo, hi)
  {
    hide Shares, Log, Keys, Heights;
    if stk != [] { assert Places(stk)[|stk| - 1] == stk[|stk| - 1].Place(); }
  }

  lemma StackLow(b: seq<byte>, f0: seq<int>, f: seq<int>, lo: int, hi: int, stk: seq<Task>, owner: seq<int>)
    requires Sorting(b, f0, f, lo, hi, stk, owner)
    ensures |stk| <= 39
  {
    LogLimit(hi - lo + 1);
    hide Log;
    if stk != [] { assert stk[|stk| - 1].Size() >= 0; }
  }

  lemma ApartPlaces(f: seq<int>, e: seq<int>, lo: int, hi: int, p: seq<Interval>, owner: seq<int>, s: int, t: int,
      k: int)
    requires Pending(f, e, lo, hi, p, owner) && 0 <= s < |p| && 0 <= t < |p| && s != t && 0 <= k < |f| && p[s].Has(k)
    ensures !p[t].Has(k)
  {
    OwnerOf(f, e, lo, hi, p, owner, s, k);
    OwnerOf(f, e, lo, hi, p, owner, t, k);
  }

  lemma OwnerOf(f: seq<int>, e: seq<int>, lo: int, hi: int, p: seq<Interval>, owner: seq<int>, s: int, k: int)
    requires Pending(f, e, lo, hi, p, owner) && 0 <= s < |p| && 0 <= k < |f|
    ensures |owner| == |f| && (p[s].Has(k) ==> owner[k] == s)
  {
  }

  /** The intervals below the top one keep what they share when the top one is rearranged. */
  lemma BelowShare(b: seq<byte>, f: seq<int>, g: seq<int>, lo: int, hi: int, stk: seq<Task>, owner: seq<int>, s: int)
    requires Pending(f, Keys(b), lo, hi, Places(stk), owner) && AllShare(b, f, stk) && 0 <= s < |stk| - 1
    requires Rearranged(f, g, stk[|stk| - 1].lo, stk[|stk| - 1].hi) && Indexes(g, b)
    ensures TaskShares(b, g, stk[s])
  {
    var (t, u, p) := (stk[s], stk[|stk| - 1], Places(stk));
    assert TaskShares(b, f, t) && p[s] == t.Place() && p[|stk| - 1] == u.Place();
    SameLength(f, g, u.lo, u.hi);
    forall k | t.lo <= k <= t.hi ensures g[k] == f[k] {
      ApartPlaces(f, Keys(b), lo, hi, p, owner, s, |stk| - 1, k);
    }
    hide Rearranged, Pending, SameBytes, AllShare;
    forall i, j | t.lo <= i <= t.hi && t.lo <= j <= t.hi ensures SameBytes(b, g[i], g[j], t.d) {
      assert SameBytes(b, f[i], f[j], t.d);
    }
  }

  // ------------------------------------------------------------ one step of the loop

  /** What one step leaves of the top interval. */
  ghost predicate Leftover(b: seq<byte>, g: seq<int>, top: Task, push: seq<Task>) {
    && Leaves(g, Keys(b), top.Place(), Places(push)) && AllShare(b, g, push)
    && forall s :: 0 <= s < |push| ==> push[s].Size() >= 0
  }

  lemma PlacesReplaced(stk: seq<Task>, push: seq<Task>)
    requires stk != []
    ensures Places(stk)[..|stk| - 1] + Places(push) == Places(stk[..|stk| - 1] + push)
    ensures |Places(stk)| == |stk| && Places(stk)[|stk| - 1] == stk[|stk| - 1].Place()
  {
  }

  lemma SharesReplaced(b: seq<byte>, f: seq<int>, g: seq<int>, lo: int, hi: int, stk: seq<Task>, owner: seq<int>,
      push: seq<Task>)
    requires Pending(f, Keys(b), lo, hi, Places(stk), owner) && AllShare(b, f, stk) && stk != []
    requires Rearranged(f, g, stk[|stk| - 1].lo, stk[|stk| - 1].hi) && Indexes(g, b) && AllShare(b, g, push)
    ensures AllShare(b, g, stk[..|stk| - 1] + push)
  {
    hide TaskShares, Pending, Rearranged;
    var all := stk[..|stk| - 1] + push;
    forall s | 0 <= s < |all| ensures TaskShares(b, g, all[s]) {
      if s < |stk| - 1 {
        BelowShare(b, f, g, lo, hi, stk, owner, s);
      } else {
        assert all[s] == push[s - (|stk| - 1)];
      }
    }
  }

  lemma SortingGoesOn(b: seq<byte>, f0: seq<int>, f: seq<int>, g: seq<int>, lo: int, hi: int, stk: seq<Task>,
      owner: seq<int>, push: seq<Task>)
    returns (owner': seq<int>)
    requires Sorting(b, f0, f, lo, hi, stk, owner) && stk != []
    requires Rearranged(f, g, stk[|stk| - 1].lo, stk[|stk| - 1].hi) && Indexes(g, b)
    requires Leftover(b, g, stk[|stk| - 1], push) && Heights(stk[..|stk| - 1] + push, hi - lo + 1)
    ensures Sorting(b, f0, g, lo, hi, stk[..|stk| - 1] + push, owner')
  {
    var t := |stk| - 1;
    SortingTop(b, f0, f, lo, hi, stk, owner);
    PlacesReplaced(stk, push);
    hide Rearranged, Pending, Leaves, AllShare, Heights, Keys, NewOwner, Places;
    ReplaceTop(f, g, Keys(b), lo, hi, Places(stk), owner, Places(push));
    Widen(f, g, lo, hi, stk[t].lo, stk[t].hi);
    RearrangedTwice(f0, f, g, lo, hi);
    SharesReplaced(b, f, g, lo, hi, stk, owner, push);
    owner' := NewOwner(owner, Places(stk), Places(push));
  }

  lemma NothingLeft(b: seq<byte>, g: seq<int>, top: Task)
    requires Indexes(g, b) && Indexes(g, Keys(b)) && 0 <= top.lo <= top.hi + 1 <= |g|
    requires SortedBy(g, Keys(b), top.lo, top.hi)
    ensures Leftover(b, g, top, [])
  {
    SortedLeavesNothing(g, Keys(b), top.Place());
    assert Places([]) == [];
  }

  lemma HeightsPop(stk: seq<Task>, total: int)
    requires Heights(stk, total) && stk != []
    ensures Heights(stk[..|stk| - 1] + [], total) && stk[..|stk| - 1] + [] == stk[..|stk| - 1]
  {
    hide Log;
  }

  lemma WorkPop(stk: seq<Task>)
    requires stk != []
    ensures Work(stk[..|stk| - 1]) < Work(stk)
  {
    hide Weight;
  }

  /** Equal keys at this depth: one more byte is shared. */
  lemma SharesDeeper(b: seq<byte>, over: seq<byte>, quad: seq<int>, g: seq<int>, lo: int, hi: int, d: nat, med: int)
    requires Comparable(b, over, quad) && Indexes(g, b) && 0 <= lo && hi < |g| && Shares(b, g, lo, hi, d)
    requires d < MAX_DEPTH && |b| + d <= |over| && Indexes(g, DepthBytes(over, |b|, d))
    requires forall k :: lo <= k <= hi ==> KeyAt(g, DepthBytes(over, |b|, d), k) == med
    ensures Shares(b, g, lo, hi, d + 1)
  {
    var e := DepthBytes(over, |b|, d);
    hide Comparable, SameBytes, DepthBytes;
    forall i, j | lo <= i <= hi && lo <= j <= hi ensures SameBytes(b, g[i], g[j], d + 1) {
      assert SameBytes(b, g[i], g[j], d) && KeyAt(g, e, i) == KeyAt(g, e, j);
      DepthDecides(b, over, quad, d, g[i], g[j]);
    }
  }

  lemma WholeLeft(b: seq<byte>, g: seq<int>, top: Task, next: Task)
    requires Indexes(g, b) && top.lo <= top.hi && next.lo == top.lo && next.hi == top.hi && TaskShares(b, g, next)
    ensures Leftover(b, g, top, [next])
  {
    hide Keys, Shares;
    assert Places([next]) == [top.Place()] && [top.Place()][..0] == [];
  }

  /** All keys at this depth are equal: the interval stays, one byte deeper. */
  lemma OneDeeper(b: seq<byte>, over: seq<byte>, quad: seq<int>, f: seq<int>, g: seq<int>, top: Task, med: int)
    requires Comparable(b, over, quad) && TaskShares(b, f, top) && top.d < MAX_DEPTH && |b| + top.d <= |over|
    requires Rearranged(f, g, top.lo, top.hi) && top.lo <= top.hi
    requires AllEqual(g, DepthBytes(over, |b|, top.d), top.lo, top.hi, med)
    ensures Indexes(g, b) && Leftover(b, g, top, [Task(top.lo, top.hi, top.d + 1)])
  {
    SharesRearranged(b, f, g, top.lo, top.hi, top.d);
    hide Comparable, Keys, Rearranged, Shares, Leftover, DepthBytes;
    SharesDeeper(b, over, quad, g, top.lo, top.hi, top.d, med);
    WholeLeft(b, g, top, Task(top.lo, top.hi, top.d + 1));
  }

  // ------------------------------------------------------------ three parts

  /** The smaller, the larger and the equal part, in some order. */
  ghost predicate ThreeParts(push: seq<Task>, x: Task, y: Task, z: Task) {
    || push == [x, y, z] || push == [x, z, y] || push == [y, x, z]
    || push == [y, z, x] || push == [z, x, y] || push == [z, y, x]
  }

  /** By size, the largest first: the three conditional exchanges of the source. */
  function BySize(x: Task, y: Task, z: Task): (r: seq<Task>)
    ensures |r| == 3 && r[0].Size() >= r[1].Size() >= r[2].Size() && ThreeParts(r, x, y, z)
  {
    var (x1, y1) := if x.Size() < y.Size() then (y, x) else (x, y);
    var (y2, z2) := if y1.Size() < z.Size() then (z, y1) else (y1, z);
    var (x3, y3) := if x1.Size() < y2.Size() then (y2, x1) else (x1, y2);
    [x3, y3, z2]
  }

  /** Intervals that do not overlap own their places. */
  lemma {:induction false} OwnerIs(push: seq<Interval>, s: int, k: int)
    requires 0 <= s < |push| && push[s].Has(k) && forall t :: 0 <= t < |push| && push[t].Has(k) ==> t == s
    ensures OwnerIn(push, k) == s
  {
    if s < |push| - 1 {
      assert !push[|push| - 1].Has(k);
      assert forall t :: 0 <= t < |push| - 1 ==> push[..|push| - 1][t] == push[t];
      OwnerIs(push[..|push| - 1], s, k);
    }
  }

  /** In which part a place lies. */
  ghost function PartOf(push: seq<Task>, x: Task, y: Task, z: Task, k: int): (s: int)
    requires ThreeParts(push, x, y, z) && (x.Place().Has(k) || y.Place().Has(k) || z.Place().Has(k))
    ensures 0 <= s < |push| && push[s].Place().Has(k)
  {
    if push[0].Place().Has(k) then 0 else if push[1].Place().Has(k) then 1 else 2
  }

  /** The parts of a finished partition. */
  ghost predicate Parted(top: Task, x: Task, y: Task, z: Task, n: int, m: int) {
    && top.lo <= n + 1 < m <= top.hi + 1
    && x == Task(top.lo, n, top.d) && y == Task(m, top.hi, top.d) && z == Task(n + 1, m - 1, top.d + 1)
  }

  lemma PartIs(push: seq<Task>, top: Task, x: Task, y: Task, z: Task, n: int, m: int, k: int)
    requires Parted(top, x, y, z, n, m) && ThreeParts(push, x, y, z) && top.lo <= k <= top.hi
    ensures 0 <= PartOf(push, x, y, z, k) < |push| && OwnerIn(Places(push), k) == PartOf(push, x, y, z, k)
    ensures push[PartOf(push, x, y, z, k)] == if k <= n then x else if k < m then z else y
  {
    var s := PartOf(push, x, y, z, k);
    assert Places(push)[s].Has(k);
    forall t | 0 <= t < |push| && Places(push)[t].Has(k) ensures t == s {
      assert push[t].Place().Has(k);
    }
    OwnerIs(Places(push), s, k);
  }

  /** Each part shares what it should. */
  lemma PartsShare(b: seq<byte>, over: seq<byte>, quad: seq<int>, f: seq<int>, g: seq<int>, top: Task, x: Task, y: Task,
      z: Task, n: int, m: int, med: int)
    requires Comparable(b, over, quad) && TaskShares(b, f, top) && top.d < MAX_DEPTH && |b| + top.d <= |over|
    requires Rearranged(f, g, top.lo, top.hi) && Parted(top, x, y, z, n, m)
    requires Split(g, DepthBytes(over, |b|, top.d), top.lo, top.hi, n, m, med)
    ensures TaskShares(b, g, x) && TaskShares(b, g, y) && TaskShares(b, g, z)
  {
    SharesRearranged(b, f, g, top.lo, top.hi, top.d);
    hide Comparable, Keys, Rearranged, DepthBytes, SameBytes;
    assert Shares(b, g, z.lo, z.hi, top.d);
    SharesDeeper(b, over, quad, g, z.lo, z.hi, top.d, med);
  }

  /** Places of different parts are in order. */
  lemma PartsOrdered(b: seq<byte>, over: seq<byte>, quad: seq<int>, g: seq<int>, top: Task, n: int, m: int, med: int,
      i: int, j: int)
    requires Comparable(b, over, quad) && TaskShares(b, g, top) && top.d < MAX_DEPTH && |b| + top.d <= |over|
    requires Split(g, DepthBytes(over, |b|, top.d), top.lo, top.hi, n, m, med) && top.lo <= i < j <= top.hi
    requires (i <= n < j) || (n < i < m <= j)
    ensures Indexes(g, Keys(b)) && 0 <= i < |g| && 0 <= j < |g| && KeyAt(g, Keys(b), i) <= KeyAt(g, Keys(b), j)
  {
    var e := DepthBytes(over, |b|, top.d);
    hide Comparable, Keys, DepthBytes, SameBytes;
    assert KeyAt(g, e, i) < KeyAt(g, e, j);
    assert SameBytes(b, g[i], g[j], top.d);
    DepthDecides(b, over, quad, top.d, g[i], g[j]);
  }

  lemma ThreeInOrder(b: seq<byte>, over: seq<byte>, quad: seq<int>, g: seq<int>, top: Task, x: Task, y: Task,
      z: Task, n: int, m: int, med: int, push: seq<Task>, i: int, j: int)
    requires Comparable(b, over, quad) && TaskShares(b, g, top) && top.d < MAX_DEPTH && |b| + top.d <= |over|
    requires Parted(top, x, y, z, n, m) && ThreeParts(push, x, y, z)
    requires Split(g, DepthBytes(over, |b|, top.d), top.lo, top.hi, n, m, med) && top.lo <= i < j <= top.hi
    ensures Indexes(g, Keys(b)) && 0 <= i < |g| && 0 <= j < |g|
    ensures KeyAt(g, Keys(b), i) <= KeyAt(g, Keys(b), j)
            || OwnerIn(Places(push), i) == OwnerIn(Places(push), j) != -1
  {
    hide Comparable, Keys, DepthBytes, Shares, OwnerIn, PartOf, Split, ThreeParts;
    PartIs(push, top, x, y, z, n, m, i);
    PartIs(push, top, x, y, z, n, m, j);
    if (i <= n < j) || (n < i < m <= j) {
      PartsOrdered(b, over, quad, g, top, n, m, med, i, j);
    } else {
      SamePart(push, top, x, y, z, n, m, if i <= n then x else if i < m then z else y, i, j);
    }
  }

  lemma SamePart(push: seq<Task>, top: Task, x: Task, y: Task, z: Task, n: int, m: int, t: Task, i: int, j: int)
    requires Parted(top, x, y, z, n, m) && ThreeParts(push, x, y, z)
    requires (t == x || t == y || t == z) && t.Place().Has(i) && t.Place().Has(j)
    ensures PartOf(push, x, y, z, i) == PartOf(push, x, y, z, j)
  {
  }

  lemma OwnPlaces(push: seq<Task>, top: Task, x: Task, y: Task, z: Task, n: int, m: int)
    requires Parted(top, x, y, z, n, m) && ThreeParts(push, x, y, z)
    ensures forall s :: 0 <= s < |Places(push)| ==>
            top.lo <= Places(push)[s].lo <= Places(push)[s].hi + 1 <= top.hi + 1
    ensures forall s, k :: 0 <= s < |Places(push)| && Places(push)[s].Has(k) ==> OwnerIn(Places(push), k) == s
    ensures |push| == 3 && forall s :: 0 <= s < 3 ==> push[s].Size() >= 0
  {
    hide OwnerIn;
    forall s, k | 0 <= s < |push| && Places(push)[s].Has(k) ensures OwnerIn(Places(push), k) == s {
      assert push[s].Place().Has(k);
      PartIs(push, top, x, y, z, n, m, k);
    }
  }

  lemma ThreeLeft(b: seq<byte>, over: seq<byte>, quad: seq<int>, f: seq<int>, g: seq<int>, top: Task, x: Task, y: Task,
      z: Task, n: int, m: int, med: int, push: seq<Task>)
    requires Comparable(b, over, quad) && TaskShares(b, f, top) && top.d < MAX_DEPTH && |b| + top.d <= |over|
    requires Rearranged(f, g, top.lo, top.hi) && Parted(top, x, y, z, n, m) && ThreeParts(push, x, y, z)
    requires Split(g, DepthBytes(over, |b|, top.d), top.lo, top.hi, n, m, med)
    ensures Indexes(g, b) && Leftover(b, g, top, push)
  {
    SharesRearranged(b, f, g, top.lo, top.hi, top.d);
    PartsShare(b, over, quad, f, g, top, x, y, z, n, m, med);
    OwnPlaces(push, top, x, y, z, n, m);
    hide Comparable, Keys, Rearranged, DepthBytes, Shares, OwnerIn, PartOf, Split, Places;
    forall i, j | top.lo <= i < j <= top.hi
      ensures KeyAt(g, Keys(b), i) <= KeyAt(g, Keys(b), j)
              || OwnerIn(Places(push), i) == OwnerIn(Places(push), j) != -1
    {
      ThreeInOrder(b, over, quad, g, top, x, y, z, n, m, med, push, i, j);
    }
  }

  lemma HeightsPush(stk: seq<Task>, total: int, push: seq<Task>)
    requires Heights(stk, total) && stk != [] && |push| == 3 && stk[|stk| - 1].Size() >= 2
    requires push[0].Size() >= push[1].Size() >= push[2].Size() >= 0
    requires push[0].Size() + push[1].Size() + push[2].Size() == stk[|stk| - 1].Size()
    ensures Heights(stk[..|stk| - 1] + push, total)
  {
    var (t, size) := (|stk| - 1, stk[|stk| - 1].Size());
    LogGrows(push[0].Size(), size);
    LogHalf(push[1].Size(), size);
    LogHalf(push[2].Size(), size);
    hide Log;
    var all := stk[..t] + push;
    forall s | 0 <= s < |all| ensures all[s].Size() >= 0 && s + 2 * Log(all[s].Size()) <= 2 * Log(total) {
      if s < t { assert all[s] == stk[s]; } else { assert all[s] == push[s - t]; }
    }
  }

  lemma WorkPush(stk: seq<Task>, top: Task, x: Task, y: Task, z: Task, n: int, m: int, push: seq<Task>)
    requires stk != [] && top == stk[|stk| - 1]
    requires Parted(top, x, y, z, n, m) && ThreeParts(push, x, y, z) && 0 <= top.d < MAX_DEPTH
    requires x.Size() + y.Size() > 0
    ensures Work(stk[..|stk| - 1] + push) < Work(stk)
  {
    hide Work, Weight;
    var rest := stk[..|stk| - 1];
    WorkThree(rest, push[0], push[1], push[2]);
    assert push == [push[0], push[1], push[2]];
    WorkTop(stk);
    WeightsFall(top, x, y, z, n, m);
  }

  lemma WorkTop(stk: seq<Task>)
    requires stk != []
    ensures Work(stk) == Work(stk[..|stk| - 1]) + Weight(stk[|stk| - 1])
  {
  }

  lemma WeightsFall(top: Task, x: Task, y: Task, z: Task, n: int, m: int)
    requires Parted(top, x, y, z, n, m) && 0 <= top.d < MAX_DEPTH && x.Size() + y.Size() > 0
    ensures Weight(x) + Weight(y) + Weight(z) < Weight(top)
  {
  }

  lemma WorkThree(rest: seq<Task>, x: Task, y: Task, z: Task)
    ensures Work(rest + [x, y, z]) == Work(rest) + Weight(x) + Weight(y) + Weight(z)
  {
    hide Weight;
    WorkOneMore(rest, x);
    WorkOneMore(rest + [x], y);
    WorkOneMore(rest + [x] + [y], z);
    assert rest + [x] + [y] + [z] == rest + [x, y, z];
  }

  lemma WorkOneMore(rest: seq<Task>, x: Task)
    ensures Work(rest + [x]) == Work(rest) + Weight(x)
  {
    hide Weight;
    assert (rest + [x])[..|rest|] == rest;
  }

  lemma WorkDeeper(stk: seq<Task>, top: Task)
    requires stk != [] && top == stk[|stk| - 1]
    requires top.lo <= top.hi && 0 <= top.d < MAX_DEPTH
    ensures Work(stk[..|stk| - 1] + [Task(top.lo, top.hi, top.d + 1)]) < Work(stk)
  {
    var (rest, next) := (stk[..|stk| - 1], Task(top.lo, top.hi, top.d + 1));
    assert (rest + [next])[..|rest|] == rest;
  }

  lemma HeightsDeeper(stk: seq<Task>, total: int, next: Task)
    requires Heights(stk, total) && stk != [] && next.Size() == stk[|stk| - 1].Size()
    ensures Heights(stk[..|stk| - 1] + [next], total)
  {
    hide Log;
    var (t, all) := (|stk| - 1, stk[..|stk| - 1] + [next]);
    forall s | 0 <= s < |all| ensures all[s].Size() >= 0 && s + 2 * Log(all[s].Size()) <= 2 * Log(total) {
      if s < t { assert all[s] == stk[s]; } else { assert all[s] == next && s == t; }
    }
  }

  // ------------------------------------------------------------ the algorithm

  /** The three arrays of the source, read as a stack. */
  ghost predicate OnArrays(stackLo: seq<int>, stackHi: seq<int>, stackD: seq<int>, stk: seq<Task>) {
    && |stk| <= |stackLo| == |stackHi| == |stackD|
    && forall s :: 0 <= s < |stk| ==> stk[s] == Task(stackLo[s], stackHi[s], stackD[s])
  }

  /** `mpush`. */
  method Push(stackLo: array<int>, stackHi: array<int>, stackD: array<int>, sp: int, t: Task, ghost stk: seq<Task>)
      returns (sp': int)
    requires stackLo != stackHi && stackLo != stackD && stackHi != stackD
    requires OnArrays(stackLo[..], stackHi[..], stackD[..], stk) && sp == |stk| < stackLo.Length
    modifies stackLo, stackHi, stackD
    ensures sp' == sp + 1 && OnArrays(stackLo[..], stackHi[..], stackD[..], stk + [t])
  {
    stackLo[sp], stackHi[sp], stackD[sp] := t.lo, t.hi, t.d;
    sp' := sp + 1;
  }

  lemma TopOnArrays(stackLo: seq<int>, stackHi: seq<int>, stackD: seq<int>, stk: seq<Task>)
    requires OnArrays(stackLo, stackHi, stackD, stk) && stk != []
    ensures var t := |stk| - 1;
            t < |stackLo| && t < |stackHi| && t < |stackD| && Task(stackLo[t], stackHi[t], stackD[t]) == stk[t]
    ensures OnArrays(stackLo, stackHi, stackD, stk[..|stk| - 1])
  {
  }

  method PushThree(stackLo: array<int>, stackHi: array<int>, stackD: array<int>, sp0: int, next: seq<Task>,
      ghost rest: seq<Task>) returns (sp: int)
    requires stackLo != stackHi && stackLo != stackD && stackHi != stackD && |next| == 3
    requires OnArrays(stackLo[..], stackHi[..], stackD[..], rest) && sp0 == |rest| < stackLo.Length - 2
    requires stackLo.Length == stackHi.Length == stackD.Length
    modifies stackLo, stackHi, stackD
    ensures sp == sp0 + 3 && OnArrays(stackLo[..], stackHi[..], stackD[..], rest + next)
  {
    hide OnArrays;
    sp := Push(stackLo, stackHi, stackD, sp0, next[0], rest);
    sp := Push(stackLo, stackHi, stackD, sp, next[1], rest + [next[0]]);
    sp := Push(stackLo, stackHi, stackD, sp, next[2], rest + [next[0]] + [next[1]]);
    assert rest + [next[0]] + [next[1]] + [next[2]] == rest + next;
  }

  /** `mmed3`: the median of three bytes. */
  method Med3(a0: byte, b0: byte, c0: byte) returns (med: byte)
    ensures med == a0 || med == b0 || med == c0
    ensures (a0 <= med && b0 <= med) || (a0 <= med && c0 <= med) || (b0 <= med && c0 <= med)
    ensures (a0 >= med && b0 >= med) || (a0 >= med && c0 >= med) || (b0 >= med && c0 >= med)
  {
    var a, b, c := a0, b0, c0;
    if a > b { a, b := b, a; }
    if b > c {
      b := c;
      if a > b { b := a; }
    }
    med := b;
  }

  /** A small or deep interval: sorted at once. */
  method SortSmall(ptr: array<int>, over: seq<byte>, quad: seq<int>, nblock: int, t: Task, budget0: int,
      ghost b: seq<byte>)
    returns (budget: int)
    requires Comparable(b, over, quad) && nblock == |b| && ptr.Length <= 2000000 && TaskShares(b, ptr[..], t)
    requires Apart(ptr[..])
    modifies ptr
    ensures Rearranged(old(ptr[..]), ptr[..], t.lo, t.hi) && Indexes(ptr[..], b)
    ensures budget >= 0 ==> Leftover(b, ptr[..], t, [])
    ensures Spent(b, budget0, budget)
  {
    ghost var f := ptr[..];
    Sizes(b, over, quad);
    assert Indexes(f, b) && Indexes(f, DepthKeys(b, t.d)) && Sortable(b, over, quad, nblock, t.d, f);
    hide Sortable, SortedBy, Rearranged, Comparable, DepthKeys, Keys, Shares, Leftover, Spent;
    budget := MainSimpleSort.MainSimpleSort(ptr, over, quad, nblock, t.lo, t.hi, t.d, budget0, b);
    SharesRearranged(b, f, ptr[..], t.lo, t.hi, t.d);
    if budget >= 0 {
      SortedFromDepth(b, over, quad, t.d, ptr[..], t.lo, t.hi);
      NothingLeft(b, ptr[..], t);
    }
  }

  /** One partition: what is pushed instead of the interval. */
  method PartitionTask(ptr: array<int>, over: seq<byte>, quad: seq<int>, nblock: int, t: Task, ghost b: seq<byte>)
    returns (next: seq<Task>)
    requires Comparable(b, over, quad) && nblock == |b| && TaskShares(b, ptr[..], t) && t.d < MAX_DEPTH && t.lo < t.hi
    modifies ptr
    ensures Rearranged(old(ptr[..]), ptr[..], t.lo, t.hi) && Indexes(ptr[..], b)
    ensures Leftover(b, ptr[..], t, next)
    ensures next == [Task(t.lo, t.hi, t.d + 1)] || SmallerThree(t, next)
  {
    ghost var f := ptr[..];
    Sizes(b, over, quad);
    var e := DepthBytes(over, nblock, t.d);
    var mid := (t.lo + t.hi) / 2;
    var med := Med3(over[ptr[t.lo] + t.d], over[ptr[t.hi] + t.d], over[ptr[mid] + t.d]);
    ghost var pivot := if med == over[ptr[t.lo] + t.d] then t.lo else if med == over[ptr[t.hi] + t.d] then t.hi
        else mid;
    assert Indexes(f, e) && KeyAt(f, e, pivot) == med as int;
    hide Comparable, Keys, Rearranged, Shares, Leftover, Split, AllEqual, DepthBytes, TaskShares, Indexes, KeyAt;
    var all, n, m := SplitInterval(ptr, e, t.lo, t.hi, med as int, pivot);
    if all {
      OneDeeper(b, over, quad, f, ptr[..], t, med as int);
      next := [Task(t.lo, t.hi, t.d + 1)];
    } else {
      var x, y, z := Task(t.lo, n, t.d), Task(m, t.hi, t.d), Task(n + 1, m - 1, t.d + 1);
      next := BySize(x, y, z);
      SplitParts(ptr[..], e, t, x, y, z, n, m, med as int);
      ThreeLeft(b, over, quad, f, ptr[..], t, x, y, z, n, m, med as int, next);
    }
  }

  ghost predicate SmallerThree(t: Task, next: seq<Task>) {
    exists x, y, z, n, m :: Parted(t, x, y, z, n, m) && next == BySize(x, y, z) && x.Size() + y.Size() > 0
  }

  lemma SplitParts(g: seq<int>, e: seq<int>, t: Task, x: Task, y: Task, z: Task, n: int, m: int, med: int)
    requires Split(g, e, t.lo, t.hi, n, m, med) && (t.lo <= n || m <= t.hi)
    requires x == Task(t.lo, n, t.d) && y == Task(m, t.hi, t.d) && z == Task(n + 1, m - 1, t.d + 1)
    ensures Parted(t, x, y, z, n, m) && SmallerThree(t, BySize(x, y, z)) && ThreeParts(BySize(x, y, z), x, y, z)
  {
    hide BySize;
    assert Parted(t, x, y, z, n, m) && x.Size() + y.Size() > 0;
  }

  /** What is pushed keeps the stack low and leaves less to do. */
  lemma PushedLess(stk: seq<Task>, total: int, t: Task, next: seq<Task>)
    requires stk != [] && t == stk[|stk| - 1] && Heights(stk, total) && t.lo < t.hi && 0 <= t.d < MAX_DEPTH
    requires next == [Task(t.lo, t.hi, t.d + 1)] || SmallerThree(t, next)
    ensures Heights(stk[..|stk| - 1] + next, total) && Work(stk[..|stk| - 1] + next) < Work(stk)
    ensures |next| == 1 || |next| == 3
  {
    if next == [Task(t.lo, t.hi, t.d + 1)] {
      hide Heights, Work;
      HeightsDeeper(stk, total, next[0]);
      WorkDeeper(stk, t);
    } else {
      hide Heights, Work, BySize;
      var x, y, z, n, m :| Parted(t, x, y, z, n, m) && next == BySize(x, y, z) && x.Size() + y.Size() > 0;
      hide Parted;
      ThreeSizes(t, x, y, z, n, m, next);
      HeightsPush(stk, total, next);
      WorkPush(stk, t, x, y, z, n, m, next);
    }
  }

  lemma ThreeSizes(t: Task, x: Task, y: Task, z: Task, n: int, m: int, next: seq<Task>)
    requires Parted(t, x, y, z, n, m) && next == BySize(x, y, z)
    ensures |next| == 3 && next[0].Size() >= next[1].Size() >= next[2].Size() >= 0 && ThreeParts(next, x, y, z)
    ensures next[0].Size() + next[1].Size() + next[2].Size() == t.Size()
  {
  }

  lemma HeightsOf(b: seq<byte>, f0: seq<int>, f: seq<int>, lo: int, hi: int, stk: seq<Task>, owner: seq<int>)
    requires Sorting(b, f0, f, lo, hi, stk, owner)
    ensures Heights(stk, hi - lo + 1)
  {
  }

  /** The loop's state: the arrays hold the stack, and the stack says what is left to do. */
  ghost predicate Standing(b: seq<byte>, f0: seq<int>, f: seq<int>, lo: int, hi: int, stackLo: seq<int>,
      stackHi: seq<int>, stackD: seq<int>, stk: seq<Task>, owner: seq<int>) {
    && |stackLo| == MAIN_QSORT_STACK_SIZE && OnArrays(stackLo, stackHi, stackD, stk)
    && Sorting(b, f0, f, lo, hi, stk, owner)
  }

  lemma StandingHas(b: seq<byte>, f0: seq<int>, f: seq<int>, lo: int, hi: int, stackLo: seq<int>, stackHi: seq<int>,
      stackD: seq<int>, stk: seq<Task>, owner: seq<int>)
    requires Standing(b, f0, f, lo, hi, stackLo, stackHi, stackD, stk, owner)
    ensures |stk| <= 39 && |stackLo| == |stackHi| == |stackD| == 100 && OnArrays(stackLo, stackHi, stackD, stk)
    ensures Sorting(b, f0, f, lo, hi, stk, owner) && Heights(stk, hi - lo + 1) && Indexes(f, Keys(b))
    ensures stk == [] ==> 0 <= lo && hi < |f| && SortedBy(f, Keys(b), lo, hi) && Rearranged(f0, f, lo, hi)
    ensures stk != [] ==> var (s, t) := (|stk| - 1, stk[|stk| - 1]);
            && TaskShares(b, f, t) && Indexes(f, b) && 0 <= t.d <= MAX_DEPTH && t.lo <= t.hi + 1
            && t == Task(stackLo[s], stackHi[s], stackD[s]) && OnArrays(stackLo, stackHi, stackD, stk[..s])
  {
    SortingTop(b, f0, f, lo, hi, stk, owner);
    StackLow(b, f0, f, lo, hi, stk, owner);
    HeightsOf(b, f0, f, lo, hi, stk, owner);
    if stk != [] { TopOnArrays(stackLo, stackHi, stackD, stk); }
    hide Sorting, Keys, Heights, TaskShares, Indexes;
  }

  lemma StandingIs(b: seq<byte>, f0: seq<int>, f: seq<int>, lo: int, hi: int, stackLo: seq<int>, stackHi: seq<int>,
      stackD: seq<int>, stk: seq<Task>, owner: seq<int>)
    requires |stackLo| == 100 && OnArrays(stackLo, stackHi, stackD, stk) && Sorting(b, f0, f, lo, hi, stk, owner)
    ensures Standing(b, f0, f, lo, hi, stackLo, stackHi, stackD, stk, owner)
  {
  }

  lemma StandingApart(b: seq<byte>, f0: seq<int>, f: seq<int>, lo: int, hi: int, stackLo: seq<int>, stackHi: seq<int>,
      stackD: seq<int>, stk: seq<Task>, owner: seq<int>)
    requires Standing(b, f0, f, lo, hi, stackLo, stackHi, stackD, stk, owner) && Apart(f0)
    ensures Apart(f)
  {
    SortingTop(b, f0, f, lo, hi, stk, owner);
    hide Sorting, OnArrays, Apart, Rearranged;
    ApartStays(f0, f, lo, hi);
  }

  lemma Thresholds()
    ensures MAX_DEPTH == 15 && MAIN_QSORT_SMALL_THRESH == 20 && MAIN_QSORT_DEPTH_THRESH == 14
  {
  }

  /** One turn of the loop; `stop` when the budget is used up. */
  method Step(ptr: array<int>, over: seq<byte>, quad: seq<int>, nblock: int, stackLo: array<int>, stackHi: array<int>,
      stackD: array<int>, sp0: int, budget0: int, ghost b: seq<byte>, ghost f0: seq<int>, ghost lo: int, ghost hi: int,
      ghost stk0: seq<Task>, ghost owner0: seq<int>)
    returns (sp: int, budget: int, stop: bool, ghost stk: seq<Task>, ghost owner: seq<int>)
    requires Comparable(b, over, quad) && nblock == |b| && ptr.Length <= 1000000 && sp0 == |stk0| > 0
    requires stackLo != stackHi && stackLo != stackD && stackHi != stackD
    requires ptr != stackLo && ptr != stackHi && ptr != stackD && Apart(f0)
    requires Standing(b, f0, ptr[..], lo, hi, stackLo[..], stackHi[..], stackD[..], stk0, owner0)
    modifies ptr, stackLo, stackHi, stackD
    ensures stop ==> budget < 0 && Rearranged(f0, ptr[..], lo, hi) && Indexes(ptr[..], Keys(b))
    ensures !stop ==> sp == |stk| && Work(stk) < Work(stk0)
    ensures Spent(b, budget0, budget)
    ensures !stop ==> Standing(b, f0, ptr[..], lo, hi, stackLo[..], stackHi[..], stackD[..], stk, owner)
  {
    hide *;
    Thresholds();
    ghost var f := ptr[..];
    StandingHas(b, f0, f, lo, hi, stackLo[..], stackHi[..], stackD[..], stk0, owner0);
    ghost var rest := stk0[..|stk0| - 1];
    sp, budget, stk, owner := sp0 - 1, budget0, stk0, owner0;
    stop := false;
    SpentOn(b, budget, budget, budget);
    StandingApart(b, f0, f, lo, hi, stackLo[..], stackHi[..], stackD[..], stk0, owner0);
    var t := Task(stackLo[sp], stackHi[sp], stackD[sp]);
    if t.hi - t.lo < MAIN_QSORT_SMALL_THRESH || t.d > MAIN_QSORT_DEPTH_THRESH {
      budget := SortSmall(ptr, over, quad, nblock, t, budget, b);
      if budget < 0 {
        GivesUp(b, f0, f, ptr[..], lo, hi, stk0, owner0);
        stop := true;
      } else {
        HeightsPop(stk0, hi - lo + 1);
        WorkPop(stk0);
        owner := SortingGoesOn(b, f0, f, ptr[..], lo, hi, stk0, owner0, []);
        stk := rest;
        StandingIs(b, f0, ptr[..], lo, hi, stackLo[..], stackHi[..], stackD[..], stk, owner);
      }
    } else {
      var next := PartitionTask(ptr, over, quad, nblock, t, b);
      PushedLess(stk0, hi - lo + 1, t, next);
      owner := SortingGoesOn(b, f0, f, ptr[..], lo, hi, stk0, owner0, next);
      stk := rest + next;
      sp := PushAll(stackLo, stackHi, stackD, sp, next, rest);
      StandingIs(b, f0, ptr[..], lo, hi, stackLo[..], stackHi[..], stackD[..], stk, owner);
    }
  }

  method PushAll(stackLo: array<int>, stackHi: array<int>, stackD: array<int>, sp0: int, next: seq<Task>,
      ghost rest: seq<Task>) returns (sp: int)
    requires stackLo != stackHi && stackLo != stackD && stackHi != stackD && (|next| == 1 || |next| == 3)
    requires OnArrays(stackLo[..], stackHi[..], stackD[..], rest) && sp0 == |rest| < stackLo.Length - 2
    requires stackLo.Length == stackHi.Length == stackD.Length
    modifies stackLo, stackHi, stackD
    ensures sp == |rest + next| && OnArrays(stackLo[..], stackHi[..], stackD[..], rest + next)
  {
    hide *;
    if |next| == 1 {
      sp := Push(stackLo, stackHi, stackD, sp0, next[0], rest);
      assert next == [next[0]];
    } else {
      sp := PushThree(stackLo, stackHi, stackD, sp0, next, rest);
    }
  }

  /**
   * `mainQSort3`: the interval is rearranged and, unless the budget is used up, sorted by the rotations, of which the
   * first `dSt` bytes are known to be the same. The stack of a hundred entries never holds more than 41, since of the
   * three parts the smallest is pushed last.
   */
  method MainQSort3(ptr: array<int>, over: seq<byte>, quad: seq<int>, nblock: int, loSt: int, hiSt: int, dSt: int,
      budget0: int, ghost b: seq<byte>)
    returns (budget: int)
    requires Comparable(b, over, quad) && nblock == |b| && ptr.Length <= 1000000
    requires TaskShares(b, ptr[..], Task(loSt, hiSt, dSt)) && Apart(ptr[..])
    modifies ptr
    ensures Rearranged(old(ptr[..]), ptr[..], loSt, hiSt) && Indexes(ptr[..], Keys(b))
    ensures budget >= 0 ==> SortedBy(ptr[..], Keys(b), loSt, hiSt)
    ensures Spent(b, budget0, budget)
  {
    var stackLo, stackHi := new int[MAIN_QSORT_STACK_SIZE], new int[MAIN_QSORT_STACK_SIZE];
    var stackD := new int[MAIN_QSORT_STACK_SIZE];
    ghost var f0 := ptr[..];
    var sp := 0;
    budget := budget0;
    sp := Push(stackLo, stackHi, stackD, sp, Task(loSt, hiSt, dSt), []);
    ghost var stk := [Task(loSt, hiSt, dSt)];
    ghost var owner := SortingStarts(b, f0, stk[0]);
    assert stackLo.Length == 100;
    hide *;
    SpentOn(b, budget, budget, budget);
    StandingIs(b, f0, ptr[..], loSt, hiSt, stackLo[..], stackHi[..], stackD[..], stk, owner);
    while sp > 0
      invariant Spent(b, budget0, budget)
      invariant sp == |stk| && fresh(stackLo) && fresh(stackHi) && fresh(stackD)
      invariant Standing(b, f0, ptr[..], loSt, hiSt, stackLo[..], stackHi[..], stackD[..], stk, owner)
      decreases Work(stk)
    {
      StandingHas(b, f0, ptr[..], loSt, hiSt, stackLo[..], stackHi[..], stackD[..], stk, owner);
      assert sp < 100 - 2;
      var stop;
      ghost var left := budget;
      sp, budget, stop, stk, owner := Step(ptr, over, quad, nblock, stackLo, stackHi, stackD, sp, budget, b, f0, loSt,
        hiSt, stk, owner);
      SpentOn(b, budget0, left, budget);
      if stop { return; }
    }
    StandingHas(b, f0, ptr[..], loSt, hiSt, stackLo[..], stackHi[..], stackD[..], stk, owner);
  }

  lemma GivesUp(b: seq<byte>, f0: seq<int>, f: seq<int>, g: seq<int>, lo: int, hi: int, stk: seq<Task>,
      owner: seq<int>)
    requires Sorting(b, f0, f, lo, hi, stk, owner) && stk != []
    requires Rearranged(f, g, stk[|stk| - 1].lo, stk[|stk| - 1].hi) && Indexes(g, b)
    ensures Rearranged(f0, g, lo, hi) && Indexes(g, Keys(b))
  {
    var t := stk[|stk| - 1];
    SortingTop(b, f0, f, lo, hi, stk, owner);
    hide Rearranged, Sorting, Keys;
    Widen(f, g, lo, hi, t.lo, t.hi);
    RearrangedTwice(f0, f, g, lo, hi);
  }
}
