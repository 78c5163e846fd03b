/** `fallbackQSort3`: the three-way quicksort with an explicit stack that orders one bucket by equivalence class. */
module FallbackQSort {
  import opened Base
  import opened Rearrange

  const FALLBACK_QSORT_SMALL_THRESH := 10
  const FALLBACK_QSORT_STACK_SIZE := 100

  /** Every entry of `f` is an index into `e`. */
  ghost predicate Indexes(f: seq<int>, e: seq<int>) {
    forall k :: 0 <= k < |f| ==> 0 <= f[k] < |e|
  }

  ghost function KeyAt(f: seq<int>, e: seq<int>, k: int): int
    requires Indexes(f, e) && 0 <= k < |f|
  {
    e[f[k]]
  }

  ghost predicate SortedBy(f: seq<int>, e: seq<int>, lo: int, hi: int)
    requires Indexes(f, e) && 0 <= lo && hi < |f|
  {
    forall i, j :: lo <= i <= j <= hi ==> KeyAt(f, e, i) <= KeyAt(f, e, j)
  }

  lemma RearrangedIndexes(f: seq<int>, g: seq<int>, e: seq<int>, lo: int, hi: int)
    requires Rearranged(f, g, lo, hi) && Indexes(f, e)
    ensures Indexes(g, e)
  {
    forall k | 0 <= k < |g| ensures 0 <= g[k] < |e| {
      assert g[k] in multiset(f);
    }
  }

  /**
   * The entry that was at `i` now stands at `j - 1`; the entries between, none of them above it,
   * have moved down one place.
   */
  ghost predicate Inserted(f: seq<int>, v: seq<int>, e: seq<int>, i: int, j: int)
    requires Indexes(f, e)
  {
    && |v| == |f| && 0 <= i < j <= |f|
    && v[j - 1] == f[i]
    && (forall k :: i < k < j ==> v[k - 1] == f[k])
    && (forall k :: i < k < j ==> e[f[k]] <= e[f[i]])
    && (forall k :: j <= k < |f| ==> v[k] == f[k])
  }

  lemma InsertedFurther(f: seq<int>, v: seq<int>, e: seq<int>, i: int, j: int)
    requires Indexes(f, e) && Inserted(f, v, e, i, j) && j < |f| && e[f[j]] <= e[f[i]]
    ensures Inserted(f, v[j - 1 := v[j]][j := v[j - 1]], e, i, j + 1)
  {
  }

  lemma InsertedSorted(f: seq<int>, v: seq<int>, e: seq<int>, i: int, j: int, hi: int)
    requires Indexes(f, e) && Indexes(v, e) && Inserted(f, v, e, i, j) && j <= hi + 1 <= |f|
    requires SortedBy(f, e, i + 1, hi)
    requires j <= hi ==> e[f[i]] <= e[f[j]]
    ensures SortedBy(v, e, i, hi)
  {
    forall k | i <= k < j - 1 ensures KeyAt(v, e, k) == KeyAt(f, e, k + 1) {
      assert v[k + 1 - 1] == f[k + 1];
    }
    forall a, b | i <= a <= b <= hi ensures KeyAt(v, e, a) <= KeyAt(v, e, b) {
      var a', b' := if a < j - 1 then a + 1 else if a == j - 1 then i else a,
                    if b < j - 1 then b + 1 else if b == j - 1 then i else b;
      assert KeyAt(v, e, a) == KeyAt(f, e, a') && KeyAt(v, e, b) == KeyAt(f, e, b');
      if j - 1 <= a && j <= b {
        assert a == j - 1 ==> KeyAt(f, e, j) <= KeyAt(f, e, b');
      } else if b == j - 1 && a < b {
        assert e[f[a']] <= e[f[i]];
      }
    }
  }

  /** What the array would hold if the entry being moved were put into the hole at `j - stride`. */
  ghost predicate Filled(f: seq<int>, v: seq<int>, e: seq<int>, lo: int, hi: int, stride: int, i: int, j: int) {
    && Indexes(f, e) && 0 <= lo <= i < j - stride + 1 <= hi + 1 <= |f| && stride >= 1
    && Rearranged(f, v, lo, hi) && v[j - stride] == f[i]
    && (forall k :: j <= k < |f| ==> v[k] == f[k])
    && (stride == 1 ==> Inserted(f, v, e, i, j))
  }

  lemma FilledFurther(f: seq<int>, v: seq<int>, e: seq<int>, lo: int, hi: int, stride: int, i: int, j: int)
    requires Filled(f, v, e, lo, hi, stride, i, j) && j <= hi && e[f[j]] < e[f[i]]
    ensures Filled(f, v[j - stride := v[j]][j := f[i]], e, lo, hi, stride, i, j + stride)
  {
    hide Rearranged, Inserted, Swapped;
    FilledAt(f, v, e, lo, hi, stride, i, j);
    SwapRearranges(v, j - stride, j, lo, hi);
    RearrangedTwice(f, v, v[j - stride := v[j]][j := f[i]], lo, hi);
    if stride == 1 {
      InsertedFurther(f, v, e, i, j);
    }
  }

  lemma FilledStart(f: seq<int>, e: seq<int>, lo: int, hi: int, stride: int, i: int)
    requires Indexes(f, e) && 0 <= lo <= i <= hi - stride && hi < |f| && stride >= 1
    ensures Filled(f, f, e, lo, hi, stride, i, i + stride)
  {
  }

  lemma FilledAt(f: seq<int>, v: seq<int>, e: seq<int>, lo: int, hi: int, stride: int, i: int, j: int)
    requires Filled(f, v, e, lo, hi, stride, i, j)
    ensures |v| == |f| && j - stride < |f| && 0 <= lo && hi < |f|
    ensures j <= hi ==> v[j] == f[j] && 0 <= f[j] < |e|
  {
  }

  lemma FilledSorted(f: seq<int>, v: seq<int>, e: seq<int>, lo: int, hi: int, stride: int, i: int, j: int)
    requires Filled(f, v, e, lo, hi, stride, i, j) && (j <= hi ==> e[f[i]] <= e[f[j]])
    requires stride == 1 ==> SortedBy(f, e, i + 1, hi)
    ensures Rearranged(f, v, lo, hi) && Indexes(v, e)
    ensures stride == 1 ==> SortedBy(v, e, i, hi)
  {
    RearrangedIndexes(f, v, e, lo, hi);
    if stride == 1 {
      InsertedSorted(f, v, e, i, j, hi);
    }
  }

  /** The array, with `tmp` put into the hole at `k`, is `v`. */
  ghost predicate HoleAt(s: seq<int>, v: seq<int>, k: int, tmp: int) {
    0 <= k < |s| && s[k := tmp] == v
  }

  lemma HoleOpens(f: seq<int>, i: int)
    requires 0 <= i < |f|
    ensures HoleAt(f, f, i, f[i])
  {
  }

  lemma HoleMoves(s: seq<int>, v: seq<int>, k: int, j: int, tmp: int)
    requires HoleAt(s, v, k, tmp) && 0 <= k < j < |s|
    ensures |v| == |s| && HoleAt(s[k := s[j]], v[k := v[j]][j := tmp], j, tmp)
  {
  }

  lemma HoleFilled(s: seq<int>, v: seq<int>, k: int, tmp: int)
    requires HoleAt(s, v, k, tmp)
    ensures 0 <= k < |s| && s[k := tmp] == v
  {
  }

  /** One entry moves down over the hole, which moves up. */
  method MoveDown(fmap: array<int>, j: int, stride: int, ghost f: seq<int>, ghost v0: seq<int>, ghost e: seq<int>,
                  ghost lo: int, ghost hi: int, ghost i: int)
    returns (ghost v: seq<int>)
    requires Filled(f, v0, e, lo, hi, stride, i, j) && 0 <= i < |f| == fmap.Length && j <= hi
    requires HoleAt(fmap[..], v0, j - stride, f[i]) && 0 <= j - stride < j < |f| && 0 <= f[j] < |e| && 0 <= f[i] < |e|
             && e[f[j]] < e[f[i]]
    modifies fmap
    ensures Filled(f, v, e, lo, hi, stride, i, j + stride) && HoleAt(fmap[..], v, j, f[i]) && |v| == fmap.Length
    ensures j + stride <= hi ==> j + stride < |f| && fmap[j + stride] == f[j + stride] && 0 <= f[j + stride] < |e|
  {
    hide *;
    FilledAt(f, v0, e, lo, hi, stride, i, j);
    FilledFurther(f, v0, e, lo, hi, stride, i, j);
    HoleMoves(fmap[..], v0, j - stride, j, f[i]);
    ghost var s := fmap[..];
    v := v0[j - stride := v0[j]][j := f[i]];
    fmap[j - stride] := fmap[j];
    assert fmap[..] == s[j - stride := s[j]];
    FilledAt(f, v, e, lo, hi, stride, i, j + stride);
    HoleElsewhere(fmap[..], v, j, f[i]);
  }

  lemma HoleElsewhere(s: seq<int>, v: seq<int>, k: int, tmp: int)
    requires HoleAt(s, v, k, tmp)
    ensures |s| == |v| && forall x :: 0 <= x < |s| && x != k ==> s[x] == v[x]
  {
  }

  /** Moves the entry at `i` up past smaller ones, `stride` places at a time. */
  method InsertOne(fmap: array<int>, eclass: array<int>, lo: int, hi: int, stride: int, i: int)
    requires fmap != eclass && Indexes(fmap[..], eclass[..])
    requires 0 <= lo <= i <= hi - stride && hi < fmap.Length && stride >= 1
    requires stride == 1 ==> SortedBy(fmap[..], eclass[..], i + 1, hi)
    modifies fmap
    ensures Rearranged(old(fmap[..]), fmap[..], lo, hi) && Indexes(fmap[..], eclass[..])
    ensures stride == 1 ==> SortedBy(fmap[..], eclass[..], i, hi)
  {
    ghost var f, e := fmap[..], eclass[..];
    var tmp := fmap[i];
    var ecTmp := eclass[tmp];
    var j := i + stride;
    ghost var v := f;
    assert ecTmp == e[f[i]];
    hide *;
    FilledStart(f, e, lo, hi, stride, i);
    HoleOpens(f, i);
    FilledAt(f, v, e, lo, hi, stride, i, j);
    while j <= hi && ecTmp > eclass[fmap[j]]
      invariant i + stride <= j <= hi + stride
      invariant Filled(f, v, e, lo, hi, stride, i, j) && |v| == fmap.Length
      invariant HoleAt(fmap[..], v, j - stride, tmp)
      invariant j <= hi ==> fmap[j] == f[j] && 0 <= f[j] < |e|
    {
      v := MoveDown(fmap, j, stride, f, v, e, lo, hi, i);
      j := j + stride;
    }
    HoleFilled(fmap[..], v, j - stride, tmp);
    ghost var last := fmap[..];
    fmap[j - stride] := tmp;
    assert fmap[..] == last[j - stride := tmp];
    FilledSorted(f, v, e, lo, hi, stride, i, j);
  }

  /** One insertion sort with a stride, from the high end down; the source runs it with strides 4 and 1. */
  method InsertionPass(fmap: array<int>, eclass: array<int>, lo: int, hi: int, stride: int)
    requires fmap != eclass && Indexes(fmap[..], eclass[..])
    requires 0 <= lo <= hi + 1 <= fmap.Length && stride >= 1
    modifies fmap
    ensures Rearranged(old(fmap[..]), fmap[..], lo, hi) && Indexes(fmap[..], eclass[..])
    ensures stride == 1 ==> SortedBy(fmap[..], eclass[..], lo, hi)
  {
    var i := hi - stride;
    while i >= lo
      invariant i <= hi - stride
      invariant stride == 1 && lo <= hi ==> i >= lo - 1
      invariant Rearranged(old(fmap[..]), fmap[..], lo, hi) && Indexes(fmap[..], eclass[..])
      invariant stride == 1 ==> SortedBy(fmap[..], eclass[..], Max(lo, i + 1), hi)
    {
      ghost var f := fmap[..];
      InsertOne(fmap, eclass, lo, hi, stride, i);
      RearrangedTwice(old(fmap[..]), f, fmap[..], lo, hi);
      i := i - 1;
    }
  }

  method FallbackSimpleSort(fmap: array<int>, eclass: array<int>, lo: int, hi: int)
    requires fmap != eclass && Indexes(fmap[..], eclass[..])
    requires 0 <= lo <= hi + 1 <= fmap.Length
    modifies fmap
    ensures Rearranged(old(fmap[..]), fmap[..], lo, hi) && Indexes(fmap[..], eclass[..])
    ensures SortedBy(fmap[..], eclass[..], lo, hi)
  {
    if lo == hi { return; }
    if hi - lo > 3 {
      InsertionPass(fmap, eclass, lo, hi, 4);
    }
    InsertionPass(fmap, eclass, lo, hi, 1);
  }

  method Swap(fmap: array<int>, i: int, j: int, ghost lo: int, ghost hi: int)
    requires 0 <= lo <= i <= hi < fmap.Length && lo <= j <= hi
    modifies fmap
    ensures fmap[..] == old(fmap[..])[i := old(fmap[j])][j := old(fmap[i])]
    ensures Rearranged(old(fmap[..]), fmap[..], lo, hi)
  {
    fmap[i], fmap[j] := fmap[j], fmap[i];
    assert fmap[..] == old(fmap[..])[i := old(fmap[j])][j := old(fmap[i])];
  }

  lemma OneMoreSwapped(f: seq<int>, g: seq<int>, h: seq<int>, p1: int, p2: int, d: int)
    requires RunsSwapped(f, g, p1, p2, d) && p1 + d < p2 && p2 + d < |f|
    requires h == g[p1 + d := g[p2 + d]][p2 + d := g[p1 + d]]
    ensures RunsSwapped(f, h, p1, p2, d + 1)
  {
  }

  /** `fvswap`: exchanges two runs of `n` entries. */
  method SwapRuns(fmap: array<int>, p1: int, p2: int, n: int, ghost lo: int, ghost hi: int)
    requires 0 <= lo <= p1 && n >= 0 && p1 + n <= p2 && p2 + n <= hi + 1 <= fmap.Length
    modifies fmap
    ensures Rearranged(old(fmap[..]), fmap[..], lo, hi)
    ensures RunsSwapped(old(fmap[..]), fmap[..], p1, p2, n)
  {
    ghost var f := fmap[..];
    var yyp1, yyp2, yyn := p1, p2, n;
    assert Rearranged(f, f, lo, hi) && RunsSwapped(f, f, p1, p2, 0);
    hide Rearranged, RunsSwapped;
    while yyn > 0
      invariant 0 <= yyn <= n && yyp1 == p1 + (n - yyn) && yyp2 == p2 + (n - yyn)
      invariant Rearranged(f, fmap[..], lo, hi) && RunsSwapped(f, fmap[..], p1, p2, n - yyn)
    {
      ghost var g := fmap[..];
      Swap(fmap, yyp1, yyp2, lo, hi);
      RearrangedTwice(f, g, fmap[..], lo, hi);
      OneMoreSwapped(f, g, fmap[..], p1, p2, n - yyn);
      yyp1, yyp2, yyn := yyp1 + 1, yyp2 + 1, yyn - 1;
    }
  }

  // ------------------------------------------------------------ three-way partition

  /** Progress of the partition: equal, smaller, unseen, larger, equal. */
  ghost predicate Regions(f: seq<int>, e: seq<int>, lo: int, hi: int,
                          ltLo: int, unLo: int, unHi: int, gtHi: int, med: int)
  {
    && Indexes(f, e) && 0 <= lo <= ltLo <= unLo <= unHi + 1 <= gtHi + 1 <= hi + 1 <= |f|
    && (forall k :: lo <= k < ltLo ==> KeyAt(f, e, k) == med)
    && (forall k :: ltLo <= k < unLo ==> KeyAt(f, e, k) < med)
    && (forall k :: unHi < k <= gtHi ==> KeyAt(f, e, k) > med)
    && (forall k :: gtHi < k <= hi ==> KeyAt(f, e, k) == med)
  }

  lemma KeySwap(f: seq<int>, e: seq<int>, i: int, j: int)
    requires Indexes(f, e) && 0 <= i < |f| && 0 <= j < |f|
    ensures Indexes(Swapped(f, i, j), e)
    ensures forall k :: 0 <= k < |f| ==>
              KeyAt(Swapped(f, i, j), e, k) == KeyAt(f, e, if k == i then j else if k == j then i else k)
  {
  }

  lemma SwapEqualLow(f: seq<int>, e: seq<int>, lo: int, hi: int, ltLo: int, unLo: int, unHi: int, gtHi: int, med: int)
    requires Regions(f, e, lo, hi, ltLo, unLo, unHi, gtHi, med) && unLo <= unHi && KeyAt(f, e, unLo) == med
    ensures Regions(Swapped(f, unLo, ltLo), e, lo, hi, ltLo + 1, unLo + 1, unHi, gtHi, med)
  {
    KeySwap(f, e, unLo, ltLo);
  }

  lemma SwapEqualHigh(f: seq<int>, e: seq<int>, lo: int, hi: int, ltLo: int, unLo: int, unHi: int, gtHi: int, med: int)
    requires Regions(f, e, lo, hi, ltLo, unLo, unHi, gtHi, med) && unLo <= unHi && KeyAt(f, e, unHi) == med
    ensures Regions(Swapped(f, unHi, gtHi), e, lo, hi, ltLo, unLo, unHi - 1, gtHi - 1, med)
    ensures Indexes(Swapped(f, unHi, gtHi), e)
    ensures unLo < unHi ==> KeyAt(Swapped(f, unHi, gtHi), e, unLo) == KeyAt(f, e, unLo)
  {
    KeySwap(f, e, unHi, gtHi);
  }

  lemma SwapAcross(f: seq<int>, e: seq<int>, lo: int, hi: int, ltLo: int, unLo: int, unHi: int, gtHi: int, med: int)
    requires Regions(f, e, lo, hi, ltLo, unLo, unHi, gtHi, med) && unLo <= unHi
    requires KeyAt(f, e, unLo) > med > KeyAt(f, e, unHi)
    ensures Regions(Swapped(f, unLo, unHi), e, lo, hi, ltLo, unLo + 1, unHi - 1, gtHi, med)
  {
    KeySwap(f, e, unLo, unHi);
  }

  lemma RegionsAt(f: seq<int>, e: seq<int>, lo: int, hi: int, ltLo: int, unLo: int, unHi: int, gtHi: int, med: int)
    requires Regions(f, e, lo, hi, ltLo, unLo, unHi, gtHi, med)
    ensures Indexes(f, e) && 0 <= lo <= ltLo <= unLo <= unHi + 1 <= gtHi + 1 <= hi + 1 <= |f|
    ensures unLo <= unHi ==> 0 <= f[unLo] < |e| && 0 <= f[unHi] < |e|
    ensures unLo <= unHi && KeyAt(f, e, unLo) < med ==> Regions(f, e, lo, hi, ltLo, unLo + 1, unHi, gtHi, med)
    ensures unLo <= unHi && KeyAt(f, e, unHi) > med ==> Regions(f, e, lo, hi, ltLo, unLo, unHi - 1, gtHi, med)
  {
  }

  /** Upward scan: equal entries go to the low end, the first larger one stops it. */
  method ScanUp(fmap: array<int>, e: seq<int>, lo: int, hi: int, ltLo0: int, unLo0: int, unHi: int, gtHi: int,
      med: int)
    returns (ltLo: int, unLo: int)
    requires Regions(fmap[..], e, lo, hi, ltLo0, unLo0, unHi, gtHi, med)
    modifies fmap
    ensures Rearranged(old(fmap[..]), fmap[..], lo, hi)
    ensures Regions(fmap[..], e, lo, hi, ltLo, unLo, unHi, gtHi, med) && unLo >= unLo0
    ensures unLo <= unHi ==> KeyAt(fmap[..], e, unLo) > med
  {
    ghost var f := fmap[..];
    ghost var g := f;
    ltLo, unLo := ltLo0, unLo0;
    assert Rearranged(f, g, lo, hi);
    hide Regions, Rearranged, Indexes, Swapped;
    while true
      invariant unLo >= unLo0
      invariant fmap[..] == g && Rearranged(f, g, lo, hi) && Regions(g, e, lo, hi, ltLo, unLo, unHi, gtHi, med)
      decreases unHi - unLo + 1
    {
      RegionsAt(g, e, lo, hi, ltLo, unLo, unHi, gtHi, med);
      if unLo > unHi { break; }
      var n := e[fmap[unLo]] - med;
      if n == 0 {
        SwapEqualLow(g, e, lo, hi, ltLo, unLo, unHi, gtHi, med);
        g := SwapStep(fmap, unLo, ltLo, lo, hi, f);
        ltLo, unLo := ltLo + 1, unLo + 1;
        continue;
      }
      if n > 0 { break; }
      unLo := unLo + 1;
    }
  }

  /** Downward scan: equal entries go to the high end, the first smaller one stops it. */
  method ScanDown(fmap: array<int>, e: seq<int>, lo: int, hi: int, ltLo: int, unLo: int, unHi0: int, gtHi0: int,
      med: int)
    returns (unHi: int, gtHi: int)
    requires Regions(fmap[..], e, lo, hi, ltLo, unLo, unHi0, gtHi0, med)
    requires unLo <= unHi0 ==> KeyAt(fmap[..], e, unLo) > med
    modifies fmap
    ensures Rearranged(old(fmap[..]), fmap[..], lo, hi)
    ensures Regions(fmap[..], e, lo, hi, ltLo, unLo, unHi, gtHi, med) && unHi <= unHi0
    ensures unLo <= unHi ==> KeyAt(fmap[..], e, unLo) > med > KeyAt(fmap[..], e, unHi)
  {
    ghost var f := fmap[..];
    ghost var g := f;
    unHi, gtHi := unHi0, gtHi0;
    assert Rearranged(f, g, lo, hi);
    hide Regions, Rearranged, Indexes, Swapped;
    while true
      invariant unHi <= unHi0
      invariant fmap[..] == g && Rearranged(f, g, lo, hi) && Regions(g, e, lo, hi, ltLo, unLo, unHi, gtHi, med)
      invariant Indexes(g, e) && 0 <= unLo && unHi < |g| && (unLo <= unHi ==> KeyAt(g, e, unLo) > med)
      decreases unHi - unLo + 1
    {
      RegionsAt(g, e, lo, hi, ltLo, unLo, unHi, gtHi, med);
      if unLo > unHi { break; }
      var n := e[fmap[unHi]] - med;
      if n == 0 {
        SwapEqualHigh(g, e, lo, hi, ltLo, unLo, unHi, gtHi, med);
        g := SwapStep(fmap, unHi, gtHi, lo, hi, f);
        gtHi, unHi := gtHi - 1, unHi - 1;
        continue;
      }
      if n < 0 { break; }
      unHi := unHi - 1;
    }
  }

  method Partition(fmap: array<int>, e: seq<int>, lo: int, hi: int, med: int)
    returns (ltLo: int, unLo: int, unHi: int, gtHi: int)
    requires Indexes(fmap[..], e)
    requires 0 <= lo <= hi < fmap.Length
    modifies fmap
    ensures Rearranged(old(fmap[..]), fmap[..], lo, hi)
    ensures unHi == unLo - 1 && Regions(fmap[..], e, lo, hi, ltLo, unLo, unHi, gtHi, med)
  {
    ghost var f := fmap[..];
    unLo, ltLo := lo, lo;
    unHi, gtHi := hi, hi;
    assert Rearranged(f, f, lo, hi) && Regions(f, e, lo, hi, ltLo, unLo, unHi, gtHi, med);
    hide Regions, Rearranged, Indexes, Swapped;
    while true
      invariant Rearranged(f, fmap[..], lo, hi) && Regions(fmap[..], e, lo, hi, ltLo, unLo, unHi, gtHi, med)
      decreases unHi - unLo + 1
    {
      ghost var g := fmap[..];
      RegionsAt(g, e, lo, hi, ltLo, unLo, unHi, gtHi, med);
      ltLo, unLo := ScanUp(fmap, e, lo, hi, ltLo, unLo, unHi, gtHi, med);
      RearrangedTwice(f, g, fmap[..], lo, hi);
      g := fmap[..];
      unHi, gtHi := ScanDown(fmap, e, lo, hi, ltLo, unLo, unHi, gtHi, med);
      RearrangedTwice(f, g, fmap[..], lo, hi);
      RegionsAt(fmap[..], e, lo, hi, ltLo, unLo, unHi, gtHi, med);
      if unLo > unHi { break; }
      SwapAcross(fmap[..], e, lo, hi, ltLo, unLo, unHi, gtHi, med);
      g := SwapStep(fmap, unLo, unHi, lo, hi, f);
      unLo, unHi := unLo + 1, unHi - 1;
    }
  }

  /** `fswap`, keeping track of the rearrangement since `f`. */
  method SwapStep(fmap: array<int>, i: int, j: int, ghost lo: int, ghost hi: int, ghost f: seq<int>)
      returns (ghost g: seq<int>)
    requires 0 <= lo <= i <= hi < fmap.Length && lo <= j <= hi && Rearranged(f, fmap[..], lo, hi)
    modifies fmap
    ensures g == fmap[..] == Swapped(old(fmap[..]), i, j)
    ensures Rearranged(f, g, lo, hi)
  {
    fmap[i], fmap[j] := fmap[j], fmap[i];
    g := fmap[..];
    assert g == Swapped(old(fmap[..]), i, j);
  }

  /** The finished partition: smaller, equal (at least one), larger. */
  ghost predicate Split(f: seq<int>, e: seq<int>, lo: int, hi: int, n: int, m: int, med: int) {
    && Indexes(f, e) && 0 <= lo <= n + 1 < m <= hi + 1 <= |f|
    && (forall k :: lo <= k <= n ==> KeyAt(f, e, k) < med)
    && (forall k :: n < k < m ==> KeyAt(f, e, k) == med)
    && (forall k :: m <= k <= hi ==> KeyAt(f, e, k) > med)
  }

  /** `g` is `f` with the runs of `n` entries at p1 and at p2 exchanged. */
  ghost predicate RunsSwapped(f: seq<int>, g: seq<int>, p1: int, p2: int, n: int) {
    && |g| == |f| && 0 <= p1 && n >= 0 && p1 + n <= p2 && p2 + n <= |f|
    && (forall k :: p1 <= k < p1 + n ==> g[k] == f[k + (p2 - p1)])
    && (forall k :: p2 <= k < p2 + n ==> g[k] == f[k - (p2 - p1)])
    && (forall k :: 0 <= k < |f| && !(p1 <= k < p1 + n) && !(p2 <= k < p2 + n) ==> g[k] == f[k])
  }

  /** Exchanging the ends of "equal, smaller" gives "smaller, equal". */
  lemma LowRunSwapped(f: seq<int>, g: seq<int>, e: seq<int>, lo: int, ltLo: int, unLo: int, med: int, n: int)
    requires Indexes(f, e) && Indexes(g, e) && 0 <= lo <= ltLo <= unLo <= |f|
    requires forall k :: lo <= k < ltLo ==> KeyAt(f, e, k) == med
    requires forall k :: ltLo <= k < unLo ==> KeyAt(f, e, k) < med
    requires n == Min(ltLo - lo, unLo - ltLo) && RunsSwapped(f, g, lo, unLo - n, n)
    ensures forall k :: lo <= k < lo + (unLo - ltLo) ==> KeyAt(g, e, k) < med
    ensures forall k :: lo + (unLo - ltLo) <= k < unLo ==> KeyAt(g, e, k) == med
  {
    forall k | lo <= k < unLo ensures KeyAt(g, e, k) < med <==> k < lo + (unLo - ltLo)
      ensures KeyAt(g, e, k) <= med
    {
      var from := if k < lo + n then k + (unLo - n - lo) else if k >= unLo - n then k - (unLo - n - lo) else k;
      assert g[k] == f[from] && lo <= from < unLo;
      assert KeyAt(g, e, k) == KeyAt(f, e, from);
    }
  }

  /** Exchanging the ends of "larger, equal" gives "equal, larger". */
  lemma HighRunSwapped(f: seq<int>, g: seq<int>, e: seq<int>, unLo: int, gtHi: int, hi: int, med: int, m: int)
    requires Indexes(f, e) && Indexes(g, e) && 0 <= unLo <= gtHi + 1 <= hi + 1 <= |f|
    requires forall k :: unLo <= k <= gtHi ==> KeyAt(f, e, k) > med
    requires forall k :: gtHi < k <= hi ==> KeyAt(f, e, k) == med
    requires m == Min(hi - gtHi, gtHi - unLo + 1) && RunsSwapped(f, g, unLo, hi - m + 1, m)
    ensures forall k :: unLo <= k <= hi - (gtHi - unLo + 1) ==> KeyAt(g, e, k) == med
    ensures forall k :: hi - (gtHi - unLo + 1) < k <= hi ==> KeyAt(g, e, k) > med
  {
    forall k | unLo <= k <= hi ensures KeyAt(g, e, k) > med <==> k > hi - (gtHi - unLo + 1)
      ensures KeyAt(g, e, k) >= med
    {
      var d := hi - m + 1 - unLo;
      var from := if k < unLo + m then k + d else if k > hi - m then k - d else k;
      assert g[k] == f[from] && unLo <= from <= hi;
      assert KeyAt(g, e, k) == KeyAt(f, e, from);
    }
  }

  /** The pivot's entry survives the rearrangement. */
  lemma PivotStays(f: seq<int>, g: seq<int>, e: seq<int>, lo: int, hi: int, k: int) returns (to: int)
    requires Rearranged(f, g, lo, hi) && Indexes(f, e) && Indexes(g, e) && 0 <= lo <= k <= hi < |f|
    ensures lo <= to <= hi && KeyAt(g, e, to) == KeyAt(f, e, k)
  {
    to := CameFrom(g, f, lo, hi, k);
  }

  /** After the first exchange: smaller, equal, larger, equal. */
  ghost predicate HalfSplit(f: seq<int>, e: seq<int>, lo: int, hi: int, n: int, unLo: int, gtHi: int, med: int) {
    && Indexes(f, e) && 0 <= lo <= n + 1 <= unLo <= gtHi + 1 <= hi + 1 <= |f|
    && (forall k :: lo <= k <= n ==> KeyAt(f, e, k) < med)
    && (forall k :: n < k < unLo ==> KeyAt(f, e, k) == med)
    && (forall k :: unLo <= k <= gtHi ==> KeyAt(f, e, k) > med)
    && (forall k :: gtHi < k <= hi ==> KeyAt(f, e, k) == med)
  }

  lemma RegionsToHalf(g: seq<int>, h: seq<int>, e: seq<int>, lo: int, hi: int,
                      ltLo: int, unLo: int, gtHi: int, med: int, n: int)
    requires Rearranged(g, h, lo, hi) && Regions(g, e, lo, hi, ltLo, unLo, unLo - 1, gtHi, med)
    requires n == Min(ltLo - lo, unLo - ltLo) && RunsSwapped(g, h, lo, unLo - n, n)
    ensures HalfSplit(h, e, lo, hi, lo + unLo - ltLo - 1, unLo, gtHi, med)
  {
    hide Rearranged;
    RearrangedIndexes(g, h, e, lo, hi);
    LowRunSwapped(g, h, e, lo, ltLo, unLo, med, n);
    assert forall i :: unLo <= i <= hi ==> KeyAt(h, e, i) == KeyAt(g, e, i);
  }

  lemma HalfToSplit(h: seq<int>, k: seq<int>, e: seq<int>, lo: int, hi: int,
                    n: int, unLo: int, gtHi: int, med: int, pivot: int, m: int)
    requires Rearranged(h, k, lo, hi) && HalfSplit(h, e, lo, hi, n, unLo, gtHi, med)
    requires lo <= pivot <= hi && KeyAt(h, e, pivot) == med
    requires m == Min(hi - gtHi, gtHi - unLo + 1) && RunsSwapped(h, k, unLo, hi - m + 1, m)
    ensures Split(k, e, lo, hi, n, hi - (gtHi - unLo + 1) + 1, med)
  {
    hide Rearranged;
    RearrangedIndexes(h, k, e, lo, hi);
    HighRunSwapped(h, k, e, unLo, gtHi, hi, med, m);
    assert forall i :: lo <= i < unLo ==> KeyAt(k, e, i) == KeyAt(h, e, i);
  }

  lemma RegionsAllEqual(f: seq<int>, e: seq<int>, lo: int, hi: int, ltLo: int, unLo: int, unHi: int, gtHi: int,
      med: int)
    requires Regions(f, e, lo, hi, ltLo, unLo, unHi, gtHi, med) && gtHi < ltLo && lo <= hi
    ensures AllEqual(f, e, lo, hi, med)
  {
  }

  ghost predicate AllEqual(f: seq<int>, e: seq<int>, lo: int, hi: int, med: int) {
    Indexes(f, e) && 0 <= lo && hi < |f| && forall k :: lo <= k <= hi ==> KeyAt(f, e, k) == med
  }

  lemma EqualSorted(f: seq<int>, e: seq<int>, lo: int, hi: int, med: int)
    requires AllEqual(f, e, lo, hi, med)
    ensures Indexes(f, e) && 0 <= lo && hi < |f| && SortedBy(f, e, lo, hi)
  {
  }

  /** First `fvswap`: equal keys move from the low end towards the middle. */
  method GatherLow(fmap: array<int>, lo: int, hi: int, ltLo: int, unLo: int, gtHi: int, ghost e: seq<int>,
      ghost med: int)
    requires Regions(fmap[..], e, lo, hi, ltLo, unLo, unLo - 1, gtHi, med)
    modifies fmap
    ensures Rearranged(old(fmap[..]), fmap[..], lo, hi)
    ensures HalfSplit(fmap[..], e, lo, hi, lo + unLo - ltLo - 1, unLo, gtHi, med)
  {
    ghost var g := fmap[..];
    RegionsAt(g, e, lo, hi, ltLo, unLo, unLo - 1, gtHi, med);
    hide Regions, Rearranged, HalfSplit, RunsSwapped, KeyAt;
    var n := Min(ltLo - lo, unLo - ltLo);
    SwapRuns(fmap, lo, unLo - n, n, lo, hi);
    RegionsToHalf(g, fmap[..], e, lo, hi, ltLo, unLo, gtHi, med, n);
  }

  /** Second `fvswap`: equal keys move from the high end towards the middle. */
  method GatherHigh(fmap: array<int>, lo: int, hi: int, n: int, unLo: int, gtHi: int,
                    ghost e: seq<int>, ghost med: int, ghost pivot: int)
    requires HalfSplit(fmap[..], e, lo, hi, n, unLo, gtHi, med)
    requires lo <= pivot <= hi && KeyAt(fmap[..], e, pivot) == med
    modifies fmap
    ensures Rearranged(old(fmap[..]), fmap[..], lo, hi)
    ensures Split(fmap[..], e, lo, hi, n, hi - (gtHi - unLo + 1) + 1, med)
  {
    ghost var h := fmap[..];
    var m := Min(hi - gtHi, gtHi - (unLo - 1));
    assert 0 <= lo <= unLo && 0 <= m && m <= hi - gtHi && m <= gtHi - unLo + 1 && hi < fmap.Length;
    hide HalfSplit, Rearranged, Split, RunsSwapped, KeyAt;
    SwapRuns(fmap, unLo, hi - m + 1, m, lo, hi);
    HalfToSplit(h, fmap[..], e, lo, hi, n, unLo, gtHi, med, pivot, m);
  }

  /**
   * Partition round `key`, the key of entry `pivot`, equal keys brought to the middle; `all` when every key is equal.
   */
  method SplitInterval(fmap: array<int>, e: seq<int>, lo: int, hi: int, key: int, ghost pivot: int)
    returns (all: bool, n: int, m: int)
    requires Indexes(fmap[..], e)
    requires 0 <= lo <= pivot <= hi < fmap.Length && KeyAt(fmap[..], e, pivot) == key
    modifies fmap
    ensures Rearranged(old(fmap[..]), fmap[..], lo, hi) && Indexes(fmap[..], e)
    ensures all ==> AllEqual(fmap[..], e, lo, hi, key)
    ensures !all ==> Split(fmap[..], e, lo, hi, n, m, key) && (lo <= n || m <= hi)
  {
    ghost var f := fmap[..];
    hide *;
    var ltLo, unLo, unHi, gtHi := Partition(fmap, e, lo, hi, key);
    ghost var g := fmap[..];
    RearrangedIndexes(f, g, e, lo, hi);
    all, n, m := gtHi < ltLo, 0, 0;
    if all {
      RegionsAllEqual(g, e, lo, hi, ltLo, unLo, unHi, gtHi, key);
      return;
    }
    GatherLow(fmap, lo, hi, ltLo, unLo, gtHi, e, key);
    ghost var h := fmap[..];
    RearrangedTwice(f, g, h, lo, hi);
    RearrangedIndexes(f, h, e, lo, hi);
    ghost var to := PivotStays(f, h, e, lo, hi, pivot);
    GatherHigh(fmap, lo, hi, lo + unLo - ltLo - 1, unLo, gtHi, e, key, to);
    RearrangedTwice(f, h, fmap[..], lo, hi);
    RearrangedIndexes(f, fmap[..], e, lo, hi);
    n := lo + unLo - ltLo - 1;
    m := hi - (gtHi - unHi) + 1;
  }

  // ------------------------------------------------------------ the explicit stack

  datatype Interval = Interval(lo: int, hi: int) {
    ghost predicate Has(k: int) { lo <= k <= hi }
    function Size(): int { hi - lo + 1 }
  }

  /** Which of the pushed intervals holds place `k`, or -1. */
  ghost function OwnerIn(push: seq<Interval>, k: int): (s: int)
    ensures -1 <= s < |push| && (s >= 0 ==> push[s].Has(k))
  {
    if push == [] then -1
    else if push[|push| - 1].Has(k) then |push| - 1
    else OwnerIn(push[..|push| - 1], k)
  }

  /** The intervals lie inside lo..hi, and `owner` names for every place the one interval it lies in, or none. */
  ghost predicate Named(lo: int, hi: int, stk: seq<Interval>, owner: seq<int>) {
    && (forall s :: 0 <= s < |stk| ==> lo <= stk[s].lo <= stk[s].hi + 1 <= hi + 1)
    && (forall k :: 0 <= k < |owner| ==> owner[k] == -1 || (0 <= owner[k] < |stk| && stk[owner[k]].Has(k)))
    && (forall s, k :: 0 <= s < |stk| && 0 <= k < |owner| && stk[s].Has(k) ==> owner[k] == s)
  }

  /**
   * The stack of intervals still to be sorted. `owner` names the interval each place lies in;
   * places that no interval owns, or that different intervals own, are already in order.
   */
  ghost predicate Pending(f: seq<int>, e: seq<int>, lo: int, hi: int, stk: seq<Interval>, owner: seq<int>) {
    && Indexes(f, e) && 0 <= lo <= hi + 1 <= |f| == |owner|
    && Named(lo, hi, stk, owner)
    && (forall i, j :: lo <= i < j <= hi ==> KeyAt(f, e, i) <= KeyAt(f, e, j) || owner[i] == owner[j] != -1)
  }

  /** Rearranging one interval keeps its order with every other place. */
  lemma OthersKeepOrder(f: seq<int>, g: seq<int>, e: seq<int>, lo: int, hi: int,
                        stk: seq<Interval>, owner: seq<int>, s: int, i: int, j: int)
    requires Pending(f, e, lo, hi, stk, owner) && 0 <= s < |stk| && lo <= i < j <= hi
    requires Rearranged(f, g, stk[s].lo, stk[s].hi) && Indexes(g, e)
    requires !(owner[i] == s && owner[j] == s)
    ensures KeyAt(g, e, i) <= KeyAt(g, e, j) || owner[i] == owner[j] != -1
  {
    if stk[s].Has(i) {
      var i' := CameFrom(f, g, stk[s].lo, stk[s].hi, i);
      assert owner[i'] == s && g[j] == f[j] && i' < j;
    } else if stk[s].Has(j) {
      var j' := CameFrom(f, g, stk[s].lo, stk[s].hi, j);
      assert owner[j'] == s && g[i] == f[i] && i < j';
    }
  }

  /** What remains to be sorted inside interval `top` after one step on it. */
  ghost predicate Leaves(g: seq<int>, e: seq<int>, top: Interval, push: seq<Interval>) {
    && Indexes(g, e) && 0 <= top.lo <= top.hi + 1 <= |g|
    && (forall s :: 0 <= s < |push| ==> top.lo <= push[s].lo <= push[s].hi + 1 <= top.hi + 1)
    && (forall s, k :: 0 <= s < |push| && push[s].Has(k) ==> OwnerIn(push, k) == s)
    && (forall i, j :: top.lo <= i < j <= top.hi ==>
          KeyAt(g, e, i) <= KeyAt(g, e, j) || OwnerIn(push, i) == OwnerIn(push, j) != -1)
  }

  ghost function NewOwner(owner: seq<int>, stk: seq<Interval>, push: seq<Interval>): (o: seq<int>)
    requires stk != []
    ensures |o| == |owner|
  {
    var t := |stk| - 1;
    seq(|owner|, k requires 0 <= k < |owner| =>
      if stk[t].Has(k) then (if OwnerIn(push, k) == -1 then -1 else t + OwnerIn(push, k)) else owner[k])
  }

  /** Replacing the top interval by what is left of it keeps the invariant. */
  lemma ReplaceTop(f: seq<int>, g: seq<int>, e: seq<int>, lo: int, hi: int,
                   stk: seq<Interval>, owner: seq<int>, push: seq<Interval>)
    requires Pending(f, e, lo, hi, stk, owner) && stk != []
    requires Rearranged(f, g, stk[|stk| - 1].lo, stk[|stk| - 1].hi) && Leaves(g, e, stk[|stk| - 1], push)
    ensures Pending(g, e, lo, hi, stk[..|stk| - 1] + push, NewOwner(owner, stk, push))
  {
    hide *;
    var t := |stk| - 1;
    var stk', owner' := stk[..t] + push, NewOwner(owner, stk, push);
    SameLength(f, g, stk[t].lo, stk[t].hi);
    OwnersNamed(f, g, e, lo, hi, stk, owner, push);
    PendingSizes(f, e, lo, hi, stk, owner);
    LeavesIndexes(g, e, stk[t], push);
    forall i, j | lo <= i < j <= hi
      ensures KeyAt(g, e, i) <= KeyAt(g, e, j) || owner'[i] == owner'[j] != -1
    {
      PairKept(f, g, e, lo, hi, stk, owner, push, i, j);
    }
    PendingIs(g, e, lo, hi, stk', owner');
  }

  lemma PendingSizes(f: seq<int>, e: seq<int>, lo: int, hi: int, stk: seq<Interval>, owner: seq<int>)
    requires Pending(f, e, lo, hi, stk, owner)
    ensures 0 <= lo <= hi + 1 <= |f| == |owner|
  {
  }

  lemma LeavesIndexes(g: seq<int>, e: seq<int>, top: Interval, push: seq<Interval>)
    requires Leaves(g, e, top, push)
    ensures Indexes(g, e)
  {
  }

  lemma PendingIs(f: seq<int>, e: seq<int>, lo: int, hi: int, stk: seq<Interval>, owner: seq<int>)
    requires Indexes(f, e) && 0 <= lo <= hi + 1 <= |f| == |owner|
    requires Named(lo, hi, stk, owner)
    requires forall i, j :: lo <= i < j <= hi ==> KeyAt(f, e, i) <= KeyAt(f, e, j) || owner[i] == owner[j] != -1
    ensures Pending(f, e, lo, hi, stk, owner)
  {
  }

  /** The owners name intervals of the new stack, and each place the interval it lies in. */
  lemma OwnersNamed(f: seq<int>, g: seq<int>, e: seq<int>, lo: int, hi: int,
                    stk: seq<Interval>, owner: seq<int>, push: seq<Interval>)
    requires Pending(f, e, lo, hi, stk, owner) && stk != [] && |f| == |g| && Leaves(g, e, stk[|stk| - 1], push)
    ensures Named(lo, hi, stk[..|stk| - 1] + push, NewOwner(owner, stk, push))
  {
    var stk', owner' := stk[..|stk| - 1] + push, NewOwner(owner, stk, push);
    PushedInside(g, e, lo, hi, stk, push, f, owner);
    hide Pending, Leaves, NewOwner, Interval.Has;
    forall k | 0 <= k < |owner'| ensures owner'[k] == -1 || (0 <= owner'[k] < |stk'| && stk'[owner'[k]].Has(k)) {
      OwnerNamed(f, e, lo, hi, stk, owner, push, k);
    }
    forall s, k | 0 <= s < |stk'| && 0 <= k < |owner'| && stk'[s].Has(k) ensures owner'[k] == s {
      OwnerOnly(f, g, e, lo, hi, stk, owner, push, s, k);
    }
  }

  lemma PushedInside(g: seq<int>, e: seq<int>, lo: int, hi: int, stk: seq<Interval>, push: seq<Interval>, f: seq<int>,
                     owner: seq<int>)
    requires Pending(f, e, lo, hi, stk, owner) && stk != [] && Leaves(g, e, stk[|stk| - 1], push)
    ensures var t := stk[..|stk| - 1] + push; forall s :: 0 <= s < |t| ==> lo <= t[s].lo <= t[s].hi + 1 <= hi + 1
  {
  }

  lemma OwnerNamed(f: seq<int>, e: seq<int>, lo: int, hi: int, stk: seq<Interval>, owner: seq<int>, push: seq<Interval>,
                   k: int)
    requires Pending(f, e, lo, hi, stk, owner) && stk != [] && 0 <= k < |owner|
    ensures var s := NewOwner(owner, stk, push)[k];
            s == -1 || (0 <= s < |stk| - 1 + |push| && (stk[..|stk| - 1] + push)[s].Has(k))
  {
    hide OwnerIn, KeyAt;
    var t := |stk| - 1;
    assert owner[k] == -1 || stk[owner[k]].Has(k);
  }

  lemma OwnerOnly(f: seq<int>, g: seq<int>, e: seq<int>, lo: int, hi: int, stk: seq<Interval>, owner: seq<int>,
                  push: seq<Interval>, s: int, k: int)
    requires Pending(f, e, lo, hi, stk, owner) && stk != [] && Leaves(g, e, stk[|stk| - 1], push)
    requires 0 <= s < |stk| - 1 + |push| && 0 <= k < |owner| && (stk[..|stk| - 1] + push)[s].Has(k)
    ensures NewOwner(owner, stk, push)[k] == s
  {
    hide OwnerIn, KeyAt;
    var t := |stk| - 1;
    if s < t { assert stk[s].Has(k); } else { assert push[s - t].Has(k); }
  }

  /** Two places in order, or in one interval that is still to be sorted. */
  lemma PairKept(f: seq<int>, g: seq<int>, e: seq<int>, lo: int, hi: int,
                 stk: seq<Interval>, owner: seq<int>, push: seq<Interval>, i: int, j: int)
    requires Pending(f, e, lo, hi, stk, owner) && stk != [] && lo <= i < j <= hi
    requires Rearranged(f, g, stk[|stk| - 1].lo, stk[|stk| - 1].hi) && Leaves(g, e, stk[|stk| - 1], push)
    ensures 0 <= i < j < |g| == |owner| && Indexes(g, e)
    ensures KeyAt(g, e, i) <= KeyAt(g, e, j) || NewOwner(owner, stk, push)[i] == NewOwner(owner, stk, push)[j] != -1
  {
    hide Rearranged, OwnerIn;
    var t := |stk| - 1;
    SameLength(f, g, stk[t].lo, stk[t].hi);
    if owner[i] == t && owner[j] == t {
    } else {
      OthersKeepOrder(f, g, e, lo, hi, stk, owner, t, i, j);
    }
  }

  lemma SortedLeavesNothing(g: seq<int>, e: seq<int>, top: Interval)
    requires Indexes(g, e) && 0 <= top.lo <= top.hi + 1 <= |g| && SortedBy(g, e, top.lo, top.hi)
    ensures Leaves(g, e, top, [])
  {
  }

  lemma SplitLeavesTwo(g: seq<int>, e: seq<int>, top: Interval, n: int, m: int, med: int)
    requires Split(g, e, top.lo, top.hi, n, m, med)
    ensures Leaves(g, e, top, [Interval(top.lo, n), Interval(m, top.hi)])
    ensures Leaves(g, e, top, [Interval(m, top.hi), Interval(top.lo, n)])
    ensures top.lo - 1 <= n && m <= top.hi + 1 && (n - top.lo + 1) + (top.hi - m + 1) < top.Size()
  {
    var a, b := Interval(top.lo, n), Interval(m, top.hi);
    forall k ensures OwnerIn([a, b], k) == if b.Has(k) then 1 else if a.Has(k) then 0 else -1 { TwoOwners(a, b, k); }
    forall k ensures OwnerIn([b, a], k) == if a.Has(k) then 1 else if b.Has(k) then 0 else -1 { TwoOwners(b, a, k); }
    hide OwnerIn;
  }

  lemma TwoOwners(a: Interval, b: Interval, k: int)
    ensures OwnerIn([a, b], k) == if b.Has(k) then 1 else if a.Has(k) then 0 else -1
  {
    assert [a, b][..1] == [a] && [a][..0] == [];
    assert OwnerIn([a], k) == if a.Has(k) then 0 else -1;
  }

  /** Smaller intervals lie higher: the interval at depth `s` has at most `total` / 2^s entries. */
  ghost predicate Halving(stk: seq<Interval>, total: int) {
    forall s :: 0 <= s < |stk| ==> stk[s].Size() >= 0 && stk[s].Size() * Pow2(s) <= total
  }

  lemma Scale(a: int, b: int, p: int)
    requires a <= b && p >= 0
    ensures a * p <= b * p
  {
  }

  lemma PushHalves(stk: seq<Interval>, total: int, x: Interval, y: Interval)
    requires Halving(stk, total) && stk != [] && 0 <= y.Size() <= x.Size()
    requires x.Size() + y.Size() < stk[|stk| - 1].Size()
    ensures Halving(stk[..|stk| - 1] + [x, y], total)
    ensures stk[|stk| - 1].Size() > FALLBACK_QSORT_SMALL_THRESH && total < 0x8000_0000 ==> |stk| < 30
  {
    var t := |stk| - 1;
    var s, p := stk[t].Size(), Pow2(t);
    Scale(x.Size(), s, p);
    Scale(2 * y.Size(), s, p);
    DoubleEither(y.Size(), p);
    assert Pow2(t + 1) == 2 * p;
    if s > FALLBACK_QSORT_SMALL_THRESH && |stk| >= 30 {
      Pow2Monotone(29, t);
      Pow2Values();
      Scale(4, s, p);
    }
  }

  lemma DoubleEither(a: int, p: int)
    ensures (2 * a) * p == a * (2 * p)
  {
  }

  lemma PopHalves(stk: seq<Interval>, total: int)
    requires Halving(stk, total) && stk != []
    ensures Halving(stk[..|stk| - 1] + [], total)
  {
  }

  /** Work left: it falls with every interval taken off the stack. */
  ghost function Work(stk: seq<Interval>): nat {
    if stk == [] then 0 else Work(stk[..|stk| - 1]) + 2 * Max(0, stk[|stk| - 1].Size()) + 1
  }

  lemma WorkFalls(stk: seq<Interval>, x: Interval, y: Interval)
    requires stk != []
    ensures Work(stk[..|stk| - 1] + []) < Work(stk)
    ensures 0 <= x.Size() && 0 <= y.Size() && x.Size() + y.Size() < stk[|stk| - 1].Size() ==>
              Work(stk[..|stk| - 1] + [x, y]) < Work(stk)
  {
    var rest := stk[..|stk| - 1];
    assert rest + [] == rest;
    assert (rest + [x, y])[..|rest| + 1] == rest + [x];
    assert (rest + [x])[..|rest|] == rest;
  }

  /** The source's two arrays, read as a stack of intervals. */
  ghost predicate OnArrays(stackLo: seq<int>, stackHi: seq<int>, stk: seq<Interval>) {
    && |stk| <= |stackLo| == |stackHi|
    && forall s :: 0 <= s < |stk| ==> stackLo[s] == stk[s].lo && stackHi[s] == stk[s].hi
  }

  lemma TopOnArrays(stackLo: seq<int>, stackHi: seq<int>, stk: seq<Interval>)
    requires OnArrays(stackLo, stackHi, stk) && stk != []
    ensures var t := |stk| - 1; t < |stackLo| && t < |stackHi| && Interval(stackLo[t], stackHi[t]) == stk[t]
    ensures OnArrays(stackLo, stackHi, stk[..|stk| - 1])
  {
  }

  /** `fpush`. */
  method Push(stackLo: array<int>, stackHi: array<int>, sp: int, lo: int, hi: int, ghost stk: seq<Interval>)
      returns (sp': int)
    requires stackLo != stackHi && OnArrays(stackLo[..], stackHi[..], stk) && sp == |stk| < stackLo.Length
    modifies stackLo, stackHi
    ensures sp' == sp + 1 && OnArrays(stackLo[..], stackHi[..], stk + [Interval(lo, hi)])
  {
    stackLo[sp], stackHi[sp] := lo, hi;
    sp' := sp + 1;
  }

  /** Everything the sorting loop keeps. */
  ghost predicate Sorting(f0: seq<int>, f: seq<int>, e: seq<int>, lo: int, hi: int, stk: seq<Interval>, owner: seq<int>)
  {
    && Rearranged(f0, f, lo, hi) && Pending(f, e, lo, hi, stk, owner) && Halving(stk, hi - lo + 1)
    && hi - lo + 1 < 0x8000_0000
  }

  lemma SortingStarts(f: seq<int>, e: seq<int>, lo: int, hi: int) returns (owner: seq<int>)
    requires Indexes(f, e) && 0 <= lo <= hi + 1 <= |f| && hi - lo + 1 < 0x8000_0000
    ensures Sorting(f, f, e, lo, hi, [Interval(lo, hi)], owner)
  {
    owner := PendingStarts(f, e, lo, hi);
    hide Pending, Rearranged;
    Pow2Values();
    RearrangedSame(f, lo, hi);
  }

  lemma PendingStarts(f: seq<int>, e: seq<int>, lo: int, hi: int) returns (owner: seq<int>)
    requires Indexes(f, e) && 0 <= lo <= hi + 1 <= |f|
    ensures Pending(f, e, lo, hi, [Interval(lo, hi)], owner)
  {
    owner := seq(|f|, k => if lo <= k <= hi then 0 else -1);
    hide KeyAt;
  }

  lemma RearrangedSame(f: seq<int>, lo: int, hi: int)
    ensures Rearranged(f, f, lo, hi)
  {
  }

  lemma SortingTop(f0: seq<int>, f: seq<int>, e: seq<int>, lo: int, hi: int, stk: seq<Interval>, owner: seq<int>)
    requires Sorting(f0, f, e, lo, hi, stk, owner)
    ensures Indexes(f, e) && |f| == |f0|
    ensures stk != [] ==> var top := stk[|stk| - 1]; 0 <= lo <= top.lo <= top.hi + 1 <= hi + 1 <= |f|
    ensures stk == [] ==> SortedBy(f, e, lo, hi) && Rearranged(f0, f, lo, hi)
  {
  }

  lemma SortingPops(f0: seq<int>, f: seq<int>, g: seq<int>, e: seq<int>, lo: int, hi: int,
                    stk: seq<Interval>, owner: seq<int>) returns (owner': seq<int>)
    requires Sorting(f0, f, e, lo, hi, stk, owner) && stk != []
    requires var top := stk[|stk| - 1];
             Rearranged(f, g, top.lo, top.hi) && Indexes(g, e) && top.hi < |g| && 0 <= top.lo
                 && SortedBy(g, e, top.lo, top.hi)
    ensures Sorting(f0, g, e, lo, hi, stk[..|stk| - 1], owner') && Work(stk[..|stk| - 1]) < Work(stk)
  {
    var top := stk[|stk| - 1];
    SortingTop(f0, f, e, lo, hi, stk, owner);
    SameLength(f, g, top.lo, top.hi);
    hide Rearranged, Pending, Halving, SortedBy, Leaves, NewOwner;
    SortedLeavesNothing(g, e, top);
    ReplaceTop(f, g, e, lo, hi, stk, owner, []);
    Widen(f, g, lo, hi, top.lo, top.hi);
    RearrangedTwice(f0, f, g, lo, hi);
    PopHalves(stk, hi - lo + 1);
    WorkFalls(stk, top, top);
    owner' := NewOwner(owner, stk, []);
    assert stk[..|stk| - 1] + [] == stk[..|stk| - 1];
  }

  /** The two parts, the larger one pushed first. */
  function Parts(top: Interval, n: int, m: int): seq<Interval> {
    if n - top.lo > top.hi - m then [Interval(top.lo, n), Interval(m, top.hi)]
    else [Interval(m, top.hi), Interval(top.lo, n)]
  }

  lemma SortingSplits(f0: seq<int>, f: seq<int>, g: seq<int>, e: seq<int>, lo: int, hi: int,
                      stk: seq<Interval>, owner: seq<int>, n: int, m: int, med: int) returns (owner': seq<int>)
    requires Sorting(f0, f, e, lo, hi, stk, owner) && stk != []
    requires var top := stk[|stk| - 1];
             top.Size() > FALLBACK_QSORT_SMALL_THRESH && Rearranged(f, g, top.lo, top.hi)
                 && Split(g, e, top.lo, top.hi, n, m, med)
    ensures var stk' := stk[..|stk| - 1] + Parts(stk[|stk| - 1], n, m);
            Sorting(f0, g, e, lo, hi, stk', owner') && Work(stk') < Work(stk) && |stk| < 30
  {
    var top := stk[|stk| - 1];
    SortingTop(f0, f, e, lo, hi, stk, owner);
    hide Rearranged, Pending, Halving, Split, Leaves, NewOwner;
    SplitLeavesTwo(g, e, top, n, m, med);
    var push := Parts(top, n, m);
    ReplaceTop(f, g, e, lo, hi, stk, owner, push);
    Widen(f, g, lo, hi, top.lo, top.hi);
    RearrangedTwice(f0, f, g, lo, hi);
    PushHalves(stk, hi - lo + 1, push[0], push[1]);
    WorkFalls(stk, push[0], push[1]);
    owner' := NewOwner(owner, stk, push);
    assert push == [push[0], push[1]];
  }

  method PushParts(stackLo: array<int>, stackHi: array<int>, sp0: int, lo: int, hi: int, n: int, m: int,
      ghost rest: seq<Interval>)
    returns (sp: int)
    requires stackLo != stackHi && OnArrays(stackLo[..], stackHi[..], rest) && sp0 == |rest| < stackLo.Length - 1
    modifies stackLo, stackHi
    ensures sp == sp0 + 2 && OnArrays(stackLo[..], stackHi[..], rest + Parts(Interval(lo, hi), n, m))
  {
    hide OnArrays;
    assert stackLo.Length == stackHi.Length by { SameArrays(stackLo[..], stackHi[..], rest); }
    sp := sp0;
    if n - lo > hi - m {
      sp := Push(stackLo, stackHi, sp, lo, n, rest);
      sp := Push(stackLo, stackHi, sp, m, hi, rest + [Interval(lo, n)]);
      assert (rest + [Interval(lo, n)]) + [Interval(m, hi)] == rest + [Interval(lo, n), Interval(m, hi)];
    } else {
      sp := Push(stackLo, stackHi, sp, m, hi, rest);
      sp := Push(stackLo, stackHi, sp, lo, n, rest + [Interval(m, hi)]);
      assert (rest + [Interval(m, hi)]) + [Interval(lo, n)] == rest + [Interval(m, hi), Interval(lo, n)];
    }
  }

  lemma SameArrays(stackLo: seq<int>, stackHi: seq<int>, stk: seq<Interval>)
    requires OnArrays(stackLo, stackHi, stk)
    ensures |stackLo| == |stackHi|
  {
  }

  /** An interval that is not small is split by an entry chosen at random, or found to hold equal keys only. */
  method SplitTop(fmap: array<int>, eclass: array<int>, lo: int, hi: int, r0: int)
    returns (r: int, all: bool, n: int, m: int, ghost med: int)
    requires fmap != eclass && Indexes(fmap[..], eclass[..]) && 0 <= lo <= hi < fmap.Length
    modifies fmap
    ensures Rearranged(old(fmap[..]), fmap[..], lo, hi) && Indexes(fmap[..], eclass[..])
    ensures all ==> SortedBy(fmap[..], eclass[..], lo, hi)
    ensures !all ==> Split(fmap[..], eclass[..], lo, hi, n, m, med)
  {
    hide Split, AllEqual, Rearranged, SortedBy;
    r := (r0 * 7621 + 1) % 32768;
    var r3 := r % 3;
    var pivot := if r3 == 0 then lo else if r3 == 1 then (lo + hi) / 2 else hi;
    med := eclass[fmap[pivot]];
    assert KeyAt(fmap[..], eclass[..], pivot) == med;
    all, n, m := SplitInterval(fmap, eclass[..], lo, hi, eclass[fmap[pivot]], pivot);
    if all { EqualSorted(fmap[..], eclass[..], lo, hi, med); }
  }

  /**
   * Sorts fmap[loSt..hiSt] by equivalence class, in place. The recursion of quicksort is an explicit stack of
   * a hundred intervals; because the larger part is always pushed below the smaller one, thirty suffice.
   */
  method FallbackQSort3(fmap: array<int>, eclass: array<int>, loSt: int, hiSt: int)
    requires fmap != eclass && Indexes(fmap[..], eclass[..])
    requires 0 <= loSt <= hiSt + 1 <= fmap.Length && hiSt - loSt + 1 < 0x8000_0000
    modifies fmap
    ensures Rearranged(old(fmap[..]), fmap[..], loSt, hiSt) && Indexes(fmap[..], eclass[..])
    ensures SortedBy(fmap[..], eclass[..], loSt, hiSt)
  {
    var stackLo, stackHi := new int[FALLBACK_QSORT_STACK_SIZE], new int[FALLBACK_QSORT_STACK_SIZE];
    ghost var f0, e := fmap[..], eclass[..];
    var r := 0;
    var sp := 0;
    sp := Push(stackLo, stackHi, sp, loSt, hiSt, []);
    ghost var stk := [Interval(loSt, hiSt)];
    ghost var owner := SortingStarts(f0, e, loSt, hiSt);
    assert FALLBACK_QSORT_STACK_SIZE == 100;
    hide *;
    while sp > 0
      invariant sp == |stk| <= 31 && OnArrays(stackLo[..], stackHi[..], stk)
      invariant Sorting(f0, fmap[..], e, loSt, hiSt, stk, owner)
      decreases Work(stk)
    {
      assert sp < FALLBACK_QSORT_STACK_SIZE - 1;
      ghost var f := fmap[..];
      SortingTop(f0, f, e, loSt, hiSt, stk, owner);
      TopOnArrays(stackLo[..], stackHi[..], stk);
      sp := sp - 1;
      var lo, hi := stackLo[sp], stackHi[sp];
      if hi - lo < FALLBACK_QSORT_SMALL_THRESH {
        FallbackSimpleSort(fmap, eclass, lo, hi);
        owner := SortingPops(f0, f, fmap[..], e, loSt, hiSt, stk, owner);
        stk := stk[..sp];
        continue;
      }
      var all, n, m;
      ghost var med;
      r, all, n, m, med := SplitTop(fmap, eclass, lo, hi, r);
      if all {
        owner := SortingPops(f0, f, fmap[..], e, loSt, hiSt, stk, owner);
        stk := stk[..sp];
        continue;
      }
      owner := SortingSplits(f0, f, fmap[..], e, loSt, hiSt, stk, owner, n, m, med);
      sp := PushParts(stackLo, stackHi, sp, lo, hi, n, m, stk[..sp]);
      stk := stk[..sp - 2] + Parts(stk[sp - 2], n, m);
    }
    SortingTop(f0, fmap[..], e, loSt, hiSt, stk, owner);
  }
}
