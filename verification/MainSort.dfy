/**
 * `mainSort`: bucket sort by two bytes, then 256 turns that finish one big bucket each: its small buckets are sorted,
 * the order of others follows from theirs, and the quadrants are brought up to date.
 */
module MainSort {
  import opened Base
  import opened Counting
  import opened Rotations
  import opened BurrowsWheeler
  import opened Rearrange
  import opened FallbackQSort
  import opened BucketCopy
  import opened MainSimpleSort
  import opened MainQSort
  import opened Quadrants

  const BZ_N_RADIX := 2

  // ------------------------------------------------------------ the two-byte bucket sort

  /** The small buckets of the positions, from the last position down. */
  function PairsDown(b: seq<byte>): (k: seq<int>)
    ensures |k| == |b| && forall t :: 0 <= t < |b| ==> k[t] == PairOf(b, |b| - 1 - t)
  {
    seq(|b|, t requires 0 <= t < |b| => PairOf(b, |b| - 1 - t))
  }

  /** The first place of every small bucket, and the end. */
  function FirstPlaces(b: seq<byte>): (f: seq<int>)
    ensures |f| == 65537 && forall k :: 0 <= k < 65537 ==> f[k] == CountBelow(PairsDown(b), k)
  {
    seq(65537, k => CountBelow(PairsDown(b), k))
  }

  lemma PlacesStart(b: seq<byte>)
    ensures Starts(FirstPlaces(b), |b|)
  {
    var l := PairsDown(b);
    CountAll(l, 65536);
    hide CountBelow;
    forall k, m | 0 <= k <= m <= 65536 ensures FirstPlaces(b)[k] <= FirstPlaces(b)[m] {
      CountMonotone(l, k, m);
    }
  }

  lemma PlacedIsBucketed(b: seq<byte>, p: seq<int>)
    requires |p| == |b| && forall t :: 0 <= t < |b| ==>
             0 <= BackPlaces(PairsDown(b))[t] < |b| && p[BackPlaces(PairsDown(b))[t]] == |b| - 1 - t
    ensures Bucketed(b, p, FirstPlaces(b))
  {
    var (l, n, f) := (PairsDown(b), |b|, FirstPlaces(b));
    PlacesStart(b);
    BackPlacesPerm(l, 65536);
    var q := Inverse(BackPlaces(l));
    InverseIsPerm(BackPlaces(l));
    hide CountBelow, BackPlace;
    assert forall i :: 0 <= i < n ==> p[i] == n - 1 - q[i] by {
      forall i | 0 <= i < n ensures p[i] == n - 1 - q[i] { assert BackPlaces(l)[q[i]] == i; }
    }
    forall k, i | 0 <= k < 65536 && f[k] <= i < f[k + 1] ensures PairOf(b, p[i]) == k {
      PlaceInside(f, n, k, i);
      assert BackPlaces(l)[q[i]] == i;
      BackPlaceRange(l, 65536, q[i]);
      assert InBand(l, i, k);
      OneBand(l, i, l[q[i]], k);
    }
  }

  /** How often each pair of bytes occurs; the pair is shifted along, from the last position down. */
  method CountPairs(block: seq<byte>, ftab: array<int>)
    requires |block| > 0 && ftab.Length == 65537
    modifies ftab
    ensures forall k :: 0 <= k < 65537 ==> ftab[k] == CountOf(PairsDown(block), k)
  {
    ghost var l := PairsDown(block);
    for i := 0 to 65537
      invariant forall k :: 0 <= k < i ==> ftab[k] == 0
    {
      ftab[i] := 0;
    }
    assert l[..0] == [];
    var j := block[0] as int * 256;
    for i := |block| downto 0
      invariant j / 256 == block[if i == |block| then 0 else i] as int && 0 <= j < 65536
      invariant forall k :: 0 <= k < 65537 ==> ftab[k] == CountOf(l[..|block| - i], k)
    {
      ghost var t := |block| - 1 - i;
      j := j / 256 + block[i] as int * 256;
      assert j == l[t];
      assert l[..t + 1][..t] == l[..t];
      ftab[j] := ftab[j] + 1;
    }
    assert l[..|block|] == l;
  }

  method Cumulate(block: seq<byte>, ftab: array<int>)
    requires ftab.Length == 65537 && forall k :: 0 <= k < 65537 ==> ftab[k] == CountOf(PairsDown(block), k)
    modifies ftab
    ensures forall k :: 0 <= k < 65537 ==> ftab[k] == CountBelow(PairsDown(block), k + 1)
  {
    ghost var l := PairsDown(block);
    CountAll(l, 65536);
    hide CountBelow, CountOf;
    CountNext(l, 0);
    for i := 1 to 65537
      invariant forall k :: 0 <= k < i ==> ftab[k] == CountBelow(l, k + 1)
      invariant forall k :: i <= k < 65537 ==> ftab[k] == CountOf(l, k)
    {
      CountNext(l, i);
      ftab[i] := ftab[i] + ftab[i - 1];
    }
  }

  /** One position goes to the end of what is left of its bucket. */
  method PlaceOne(ptr: array<int>, ftab: array<int>, s: int, i: nat, ghost l: seq<int>)
    requires i < |l| == ptr.Length && ftab.Length == 65537 && ptr != ftab && 0 <= s < 65536 && s == l[|l| - 1 - i]
    requires IsPerm(BackPlaces(l), |l|) && forall k :: 0 <= k < 65537 ==> ftab[k] == BackCursor(l, |l| - 1 - i, k)
    requires forall t :: 0 <= t < |l| - 1 - i ==> ptr[BackPlaces(l)[t]] == |l| - 1 - t
    modifies ptr, ftab
    ensures forall k :: 0 <= k < 65537 ==> ftab[k] == BackCursor(l, |l| - i, k)
    ensures forall t :: 0 <= t < |l| - i ==> ptr[BackPlaces(l)[t]] == |l| - 1 - t
  {
    hide BackCursor, BackPlace;
    ghost var t := |l| - 1 - i;
    forall k | 0 <= k < 65537 ensures BackCursor(l, t + 1, k) == BackCursor(l, t, k) - if s == k then 1 else 0 {
      BackCursorMoves(l, t, k);
    }
    BackCursorMoves(l, t, s);
    var j := ftab[s] - 1;
    assert j == BackPlaces(l)[t];
    ftab[s] := j;
    ptr[j] := i;
  }

  /** Every position goes to the end of what is left of its bucket; then `ftab` holds the first places. */
  method PlacePairs(block: seq<byte>, ptr: array<int>, ftab: array<int>)
    requires 0 < |block| == ptr.Length && ftab.Length == 65537 && ptr != ftab
    requires forall k :: 0 <= k < 65537 ==> ftab[k] == CountBelow(PairsDown(block), k + 1)
    modifies ptr, ftab
    ensures Bucketed(block, ptr[..], FirstPlaces(block)) && ftab[..] == FirstPlaces(block)
  {
    ghost var (l, n) := (PairsDown(block), |block|);
    forall k | 0 <= k < 65537 ensures ftab[k] == BackCursor(l, 0, k) { BackCursorMoves(l, 0, k); }
    BackPlacesPerm(l, 65536);
    hide BackCursor, BackPlace, CountBelow, CountOf;
    var s := block[0] as int * 256;
    for i := |block| downto 0
      invariant s / 256 == block[if i == n then 0 else i] as int && 0 <= s < 65536
      invariant forall k :: 0 <= k < 65537 ==> ftab[k] == BackCursor(l, n - i, k)
      invariant forall t :: 0 <= t < n - i ==> ptr[BackPlaces(l)[t]] == n - 1 - t
    {
      s := s / 256 + block[i] as int * 256;
      assert s == l[n - 1 - i];
      PlaceOne(ptr, ftab, s, i, l);
    }
    PlacedIsBucketed(block, ptr[..]);
    forall k | 0 <= k < 65537 ensures ftab[k] == FirstPlaces(block)[k] { BackCursorMoves(l, 0, k); }
  }

  // ------------------------------------------------------------ the running order

  function BigFreq(ftab: seq<int>, c: int): int
    requires |ftab| == 65537 && 0 <= c < 256
  {
    ftab[256 * (c + 1)] - ftab[256 * c]
  }

  /** The sizes of the big buckets. */
  ghost function BigFreqs(ftab: seq<int>): (e: seq<int>)
    requires |ftab| == 65537
    ensures |e| == 256 && forall c :: 0 <= c < 256 ==> e[c] == BigFreq(ftab, c)
  {
    seq(256, c requires 0 <= c < 256 => BigFreq(ftab, c))
  }

  /** The byte at `i` moves down past those with larger buckets, `h` places at a time. */
  method InsertByte(order: array<int>, ftab: array<int>, h: int, i: int)
    requires order.Length == 256 && ftab.Length == 65537 && order != ftab && 1 <= h <= i < 256
    requires Indexes(order[..], BigFreqs(ftab[..]))
    requires h == 1 ==> SortedBy(order[..], BigFreqs(ftab[..]), 0, i - 1)
    modifies order
    ensures Rearranged(old(order[..]), order[..], 0, 255) && Indexes(order[..], BigFreqs(ftab[..]))
    ensures h == 1 ==> SortedBy(order[..], BigFreqs(ftab[..]), 0, i)
  {
    ghost var f, e := order[..], BigFreqs(ftab[..]);
    RaisedStarts(f, e, 0, 255, h, i);
    RaisedAt(f, f, e, 0, 255, h, i, i, f);
    hide *;
    var vv := order[i];
    var j := i;
    ghost var w := f;
    while BigFreq(ftab[..], order[j - h]) > BigFreq(ftab[..], vv)
      invariant h <= j <= i && Raised(f, w, e, 0, 255, h, i, j) && HoleAt(order[..], w, j, f[i])
      invariant 0 <= order[j - h] < 256 && order[j - h] == f[j - h] && 0 <= vv < 256
      decreases j
    {
      w := MoveUp(order, j, h, f, w, e, 0, 255, i);
      j := j - h;
      if j <= h - 1 { break; }
      RaisedAt(f, w, e, 0, 255, h, i, j, order[..]);
      assert order[..][j - h] == order[j - h];
    }
    FillHole(order, j, vv, f, w, e, 0, 255, h, i);
  }

  method OnePass(order: array<int>, ftab: array<int>, h: int)
    requires order.Length == 256 && ftab.Length == 65537 && order != ftab && 1 <= h
    requires Indexes(order[..], BigFreqs(ftab[..]))
    modifies order
    ensures Rearranged(old(order[..]), order[..], 0, 255) && Indexes(order[..], BigFreqs(ftab[..]))
    ensures h == 1 ==> SortedBy(order[..], BigFreqs(ftab[..]), 0, 255)
  {
    ghost var f, e := order[..], BigFreqs(ftab[..]);
    RearrangedSame(f, 0, 255);
    OneSorted(f, e, 0);
    hide *;
    var i := h;
    while i <= 255
      invariant h <= i && Rearranged(f, order[..], 0, 255) && Indexes(order[..], e)
      invariant h == 1 ==> i <= 256 && SortedBy(order[..], e, 0, i - 1)
    {
      ghost var g := order[..];
      InsertByte(order, ftab, h, i);
      RearrangedTwice(f, g, order[..], 0, 255);
      i := i + 1;
    }
  }

  /** Every byte value comes once. */
  lemma OrderIsPerm(f: seq<int>, g: seq<int>)
    requires |f| == 256 && (forall i :: 0 <= i < 256 ==> f[i] == i) && Rearranged(f, g, 0, 255)
    ensures IsPerm(g, 256)
  {
    SameLength(f, g, 0, 255);
    forall i | 0 <= i < 256 ensures 0 <= g[i] < 256 { var m := CameFrom(f, g, 0, 255, i); }
    forall i, j | 0 <= i < j < 256 ensures g[i] != g[j] { DistinctStays(f, g, 0, 255, i, j); }
  }

  /** Shell sort of the byte values, those with the smallest big buckets first. */
  method RunningOrder(ftab: array<int>) returns (order: array<int>)
    requires ftab.Length == 65537
    ensures fresh(order) && order.Length == 256 && IsPerm(order[..], 256)
    ensures forall i, j :: 0 <= i <= j < 256 ==> BigFreq(ftab[..], order[i]) <= BigFreq(ftab[..], order[j])
  {
    order := new int[256](i => i);
    ghost var f, e := order[..], BigFreqs(ftab[..]);
    RearrangedSame(f, 0, 255);
    var h := 1;
    h := 3 * h + 1;
    while h <= 256
      invariant h in {4, 13, 40, 121, 364}
      decreases 256 - h
    {
      h := 3 * h + 1;
    }
    assert Indexes(f, e);
    hide Rearranged, Indexes, SortedBy, BigFreqs, IsPerm;
    while true
      invariant h in {4, 13, 40, 121, 364} && Rearranged(f, order[..], 0, 255) && Indexes(order[..], e)
      decreases h
    {
      h := h / 3;
      ghost var g := order[..];
      OnePass(order, ftab, h);
      RearrangedTwice(f, g, order[..], 0, 255);
      if h == 1 { break; }
    }
    OrderIsPerm(f, order[..]);
    OrderBySize(order[..], ftab[..]);
  }

  lemma OrderBySize(order: seq<int>, ftab: seq<int>)
    requires |ftab| == 65537 && |order| == 256 && IsPerm(order, 256)
    requires Indexes(order, BigFreqs(ftab)) && SortedBy(order, BigFreqs(ftab), 0, 255)
    ensures forall i, j :: 0 <= i <= j < 256 ==> BigFreq(ftab, order[i]) <= BigFreq(ftab, order[j])
  {
    forall i, j | 0 <= i <= j < 256 ensures BigFreq(ftab, order[i]) <= BigFreq(ftab, order[j]) {
      assert KeyAt(order, BigFreqs(ftab), i) <= KeyAt(order, BigFreqs(ftab), j);
    }
  }

  // ------------------------------------------------------------ step 1: the small buckets of one big bucket

  /** The positions of `q`, in some order. */
  ghost predicate SameForm(b: seq<byte>, q: seq<int>, r: seq<int>) {
    |r| == |q| && Inside(r, |b|) && Distinct(r) && forall i :: 0 <= i < |r| ==> r[i] in q
  }

  ghost predicate InLexOrder(b: seq<byte>, r: seq<int>)
    requires Inside(r, |b|)
  {
    forall i, j :: 0 <= i <= j < |r| ==> LexLe(Rotation(b, r[i]), Rotation(b, r[j]))
  }

  /** Marked small buckets are in order. */
  ghost predicate MarksHold(b: seq<byte>, p: seq<int>, f: seq<int>, ftab: seq<int>) {
    && |f| == |ftab| == 65537 && Inside(p, |b|)
    && forall c, d :: 0 <= c < 256 && 0 <= d < 256 ==> MarkHolds(b, p, f, ftab, c, d)
  }

  ghost predicate MarkHolds(b: seq<byte>, p: seq<int>, f: seq<int>, ftab: seq<int>, c: int, d: int)
    requires |f| == |ftab| == 65537 && Inside(p, |b|) && 0 <= c < 256 && 0 <= d < 256
  {
    IsSet(ftab[256 * c + d]) ==> InOrderAt(b, p, f, c, d)
  }

  /** Nothing but the places of small bucket `k` has been rearranged. */
  ghost predicate Moved(b: seq<byte>, p: seq<int>, p': seq<int>, f: seq<int>, k: int) {
    && |f| == 65537 && 0 <= k < 65536 && 0 <= f[k] <= f[k + 1] <= |p| == |p'|
    && SameForm(b, p[f[k]..f[k + 1]], p'[f[k]..f[k + 1]])
    && forall i :: 0 <= i < |p| && !(f[k] <= i < f[k + 1]) ==> p'[i] == p[i]
  }

  /** The places of small bucket `k`, sorted. */
  ghost predicate Replaced(b: seq<byte>, p: seq<int>, p': seq<int>, f: seq<int>, k: int) {
    Moved(b, p, p', f, k) && InLexOrder(b, p'[f[k]..f[k + 1]])
  }

  lemma MovedAt(b: seq<byte>, p: seq<int>, p': seq<int>, f: seq<int>, k: int, i: int) returns (m: int)
    requires Moved(b, p, p', f, k) && f[k] <= i < f[k + 1]
    ensures f[k] <= m < f[k + 1] && p'[i] == p[m]
  {
    var (q, r) := (p[f[k]..f[k + 1]], p'[f[k]..f[k + 1]]);
    assert r[i - f[k]] == p'[i] && r[i - f[k]] in q;
    var x :| 0 <= x < |q| && q[x] == p'[i];
    m := f[k] + x;
  }

  lemma MovedBucketed(b: seq<byte>, p: seq<int>, p': seq<int>, f: seq<int>, k: int)
    requires Bucketed(b, p, f) && Moved(b, p, p', f, k)
    ensures Bucketed(b, p', f)
  {
    var (s, e, r) := (f[k], f[k + 1], p'[f[k]..f[k + 1]]);
    hide SameForm;
    forall i | 0 <= i < |p| ensures 0 <= p'[i] < |b| && (s <= i < e ==> PairOf(b, p'[i]) == k) {
      if s <= i < e { var m := MovedAt(b, p, p', f, k, i); }
    }
    forall i, j | 0 <= i < j < |p| ensures p'[i] != p'[j] {
      MovedApart(b, p, p', f, k, i, j);
    }
    forall c, i | 0 <= c < 65536 && f[c] <= i < f[c + 1] ensures PairOf(b, p'[i]) == c {
      PlaceInside(f, |b|, c, i);
      if s <= i < e { SamePlace(f, |b|, c, k, i); }
    }
  }

  lemma SamePlace(f: seq<int>, n: nat, c: int, k: int, i: int)
    requires Starts(f, n) && 0 <= c < 65536 && 0 <= k < 65536 && f[c] <= i < f[c + 1] && f[k] <= i < f[k + 1]
    ensures c == k
  {
    RegionsInOrder(f, n, i, i, c, k);
    RegionsInOrder(f, n, i, i, k, c);
  }

  lemma OtherPlace(f: seq<int>, n: nat, c: int, k: int, i: int)
    requires Starts(f, n) && 0 <= c < 65536 && 0 <= k < 65536 && f[c] <= i < f[c + 1] && c != k
    ensures !(f[k] <= i < f[k + 1])
  {
    hide *;
    StartsSize(f, n);
    if f[k] <= i < f[k + 1] { SamePlace(f, n, c, k, i); }
  }

  lemma StartsSize(f: seq<int>, n: nat)
    requires Starts(f, n)
    ensures |f| == 65537
  {
  }

  lemma MovedApart(b: seq<byte>, p: seq<int>, p': seq<int>, f: seq<int>, k: int, i: int, j: int)
    requires Bucketed(b, p, f) && Moved(b, p, p', f, k) && 0 <= i < j < |p|
    ensures p'[i] != p'[j]
  {
    var (s, e) := (f[k], f[k + 1]);
    if s <= i < e && s <= j < e {
      var r := p'[s..e];
      assert r[i - s] == p'[i] && r[j - s] == p'[j] && Distinct(r);
    } else if s <= i < e {
      var m := MovedAt(b, p, p', f, k, i);
    } else if s <= j < e {
      var m := MovedAt(b, p, p', f, k, j);
    }
  }

  /** A bucket whose places did not change is in order still. */
  lemma OrderKept(b: seq<byte>, p: seq<int>, p': seq<int>, f: seq<int>, c: int, d: int)
    requires |f| == 65537 && 0 <= c < 256 && 0 <= d < 256 && Inside(p, |b|) && Inside(p', |b|) && |p| == |p'|
             && InOrderAt(b, p, f, c, d)
    requires forall i :: 0 <= i < |p| && f[256 * c + d] <= i < f[256 * c + d + 1] ==> p'[i] == p[i]
    ensures InOrderAt(b, p', f, c, d)
  {
    hide LexLe, Rotation;
  }

  lemma ReplacedOrdered(b: seq<byte>, p: seq<int>, p': seq<int>, f: seq<int>, c: int, d: int)
    requires 0 <= c < 256 && 0 <= d < 256 && Replaced(b, p, p', f, 256 * c + d) && Inside(p', |b|)
    ensures InOrderAt(b, p', f, c, d)
  {
    var k := 256 * c + d;
    var r := p'[f[k]..f[k + 1]];
    hide LexLe, Rotation;
    forall i, j | f[k] <= i <= j < f[k + 1] ensures LexLe(Rotation(b, p'[i]), Rotation(b, p'[j])) {
      assert r[i - f[k]] == p'[i] && r[j - f[k]] == p'[j];
    }
  }

  lemma ReplacedMarks(b: seq<byte>, p: seq<int>, p': seq<int>, f: seq<int>, ftab: seq<int>, ftab': seq<int>, c: int,
      d: int)
    requires Bucketed(b, p, f) && 0 <= c < 256 && 0 <= d < 256 && Replaced(b, p, p', f, 256 * c + d) && Inside(p', |b|)
    requires MarksHold(b, p, f, ftab) && |ftab'| == 65537
    requires forall k :: 0 <= k < 65537 && k != 256 * c + d ==> ftab'[k] == ftab[k]
    ensures MarksHold(b, p', f, ftab')
  {
    forall x, y | 0 <= x < 256 && 0 <= y < 256 ensures MarkHolds(b, p', f, ftab', x, y) {
      assert MarkHolds(b, p, f, ftab, x, y);
      if x == c && y == d {
        ReplacedOrdered(b, p, p', f, c, d);
      } else if IsSet(ftab[256 * x + y]) {
        forall i | 0 <= i < |p| && f[256 * x + y] <= i < f[256 * x + y + 1] ensures p'[i] == p[i] {
          OtherPlace(f, |b|, 256 * x + y, 256 * c + d, i);
        }
        OrderKept(b, p, p', f, x, y);
      }
    }
  }

  /** The state of the main loop: what `ftab` marks is in order, and all of a finished big bucket is marked. */
  ghost predicate Going(b: seq<byte>, p: seq<int>, f: seq<int>, ftab: seq<int>, done: seq<bool>) {
    && 0 < |b| < SETMASK && Bucketed(b, p, f) && Table(ftab, f) && MarksHold(b, p, f, ftab) && |done| == 256
    && forall c :: 0 <= c < 256 && done[c] ==> RowMarked(ftab, c)
  }

  ghost predicate Marked(ftab: seq<int>, c: int, d: int)
    requires |ftab| == 65537 && 0 <= c < 256 && 0 <= d < 256
  {
    IsSet(ftab[256 * c + d])
  }

  ghost predicate RowMarked(ftab: seq<int>, c: int)
    requires |ftab| == 65537 && 0 <= c < 256
  {
    forall d :: 0 <= d < 256 ==> Marked(ftab, c, d)
  }

  ghost predicate MarkedUpTo(ftab: seq<int>, ss: int, j: int)
    requires |ftab| == 65537 && 0 <= ss < 256 && 0 <= j <= 256
  {
    forall d :: 0 <= d < j && d != ss ==> Marked(ftab, ss, d)
  }

  lemma GoingHas(b: seq<byte>, p: seq<int>, f: seq<int>, ftab: seq<int>, done: seq<bool>, k: int)
    requires Going(b, p, f, ftab, done) && 0 <= k < 65536
    ensures |ftab| == |f| == 65537 && |done| == 256 && |p| == |b| && 0 < |b| && Inside(p, |b|) && Clear(ftab[k]) == f[k]
            && Clear(ftab[k + 1]) == f[k + 1]
    ensures 0 <= f[k] <= f[k + 1] <= |p| && 0 <= ftab[k] < 2 * SETMASK && Distinct(p[f[k]..f[k + 1]])
            && Inside(p[f[k]..f[k + 1]], |b|)
    ensures Bucketed(b, p, f) && Table(ftab, f) && MarksHold(b, p, f, ftab)
  {
    assert f[0] <= f[k] && f[k + 1] <= f[65536];
  }

  /** One more small bucket of big bucket `ss` in order, and marked. */
  lemma RowStep(b: seq<byte>, p: seq<int>, p': seq<int>, f: seq<int>, ftab: seq<int>, done: seq<bool>, ss: int, j: int)
    requires Going(b, p, f, ftab, done) && 0 <= ss < 256 && 0 <= j < 256 && MarkedUpTo(ftab, ss, j) && Inside(p', |b|)
    requires Replaced(b, p, p', f, 256 * ss + j)
             || (p' == p && (IsSet(ftab[256 * ss + j]) || f[256 * ss + j + 1] - f[256 * ss + j] <= 1))
    ensures var ftab' := ftab[256 * ss + j := Set(ftab[256 * ss + j])];
            Going(b, p', f, ftab', done) && MarkedUpTo(ftab', ss, j + 1)
  {
    var k := 256 * ss + j;
    var ftab' := ftab[k := Set(ftab[k])];
    GoingHas(b, p, f, ftab, done, k);
    TableMarked(ftab, f, k);
    MoreMarks(ftab, ftab', done, ss, j);
    if !Replaced(b, p, p', f, k) && !IsSet(ftab[k]) {
      SmallReplaced(b, p, f, k);
    }
    if Replaced(b, p, p', f, k) {
      hide Replaced, Bucketed, MarksHold, Table, RowMarked, MarkedUpTo;
      MovedBucketed(b, p, p', f, k);
      ReplacedMarks(b, p, p', f, ftab, ftab', ss, j);
    } else {
      assert ftab' == ftab;
    }
  }

  /** Marks are never taken away. */
  lemma MoreMarks(ftab: seq<int>, ftab': seq<int>, done: seq<bool>, ss: int, j: int)
    requires |ftab| == 65537 && |done| == 256 && 0 <= ss < 256 && 0 <= j < 256
             && ftab' == ftab[256 * ss + j := Set(ftab[256 * ss + j])]
    requires (forall c :: 0 <= c < 256 && done[c] ==> RowMarked(ftab, c)) && MarkedUpTo(ftab, ss, j)
    requires IsSet(Set(ftab[256 * ss + j]))
    ensures (forall c :: 0 <= c < 256 && done[c] ==> RowMarked(ftab', c)) && MarkedUpTo(ftab', ss, j + 1)
  {
    forall c | 0 <= c < 256 && done[c] ensures RowMarked(ftab', c) {
      assert RowMarked(ftab, c);
      forall d | 0 <= d < 256 ensures Marked(ftab', c, d) { assert Marked(ftab, c, d); }
    }
    forall d | 0 <= d < j + 1 && d != ss ensures Marked(ftab', ss, d) {
      assert d < j ==> Marked(ftab, ss, d);
    }
  }

  lemma TableMarked(ftab: seq<int>, f: seq<int>, k: int)
    requires Table(ftab, f) && 0 <= k < 65536
    ensures Table(ftab[k := Set(ftab[k])], f) && IsSet(Set(ftab[k]))
  {
  }

  /** Nothing has to be done to sort one position or none. */
  lemma SmallReplaced(b: seq<byte>, p: seq<int>, f: seq<int>, k: int)
    requires |f| == 65537 && 0 <= k < 65536 && 0 <= f[k] <= f[k + 1] <= |p| && f[k + 1] - f[k] <= 1
    requires Inside(p[f[k]..f[k + 1]], |b|) && Distinct(p[f[k]..f[k + 1]])
    ensures Replaced(b, p, p, f, k)
  {
    var q := p[f[k]..f[k + 1]];
    forall i, j | 0 <= i <= j < |q| ensures LexLe(Rotation(b, q[i]), Rotation(b, q[j])) {
      CodeOrder(Rotation(b, q[i]), Rotation(b, q[j]));
    }
  }

  /** The rotations of one small bucket share two bytes. */
  lemma SmallShares(b: seq<byte>, p: seq<int>, f: seq<int>, k: int)
    requires Bucketed(b, p, f) && 0 <= k < 65536
    ensures 0 <= f[k] <= f[k + 1] <= |p| && TaskShares(b, p, Task(f[k], f[k + 1] - 1, BZ_N_RADIX)) && Apart(p)
  {
    assert f[0] <= f[k] && f[k + 1] <= f[65536];
    forall i, j | f[k] <= i < f[k + 1] && f[k] <= j < f[k + 1] ensures SameBytes(b, p[i], p[j], BZ_N_RADIX) {
      assert PairOf(b, p[i]) == k && PairOf(b, p[j]) == k;
      SamePair(b, p[i], p[j]);
    }
    hide SameBytes;
  }

  lemma SamePair(b: seq<byte>, x: int, y: int)
    requires 0 <= x < |b| && 0 <= y < |b| && PairOf(b, x) == PairOf(b, y)
    ensures SameBytes(b, x, y, BZ_N_RADIX)
  {
    assert Window(b, x, 2) == [b[x]] + ([b[Next(|b|, x)]] + Window(b, Next(|b|, Next(|b|, x)), 0));
    assert Window(b, y, 2) == [b[y]] + ([b[Next(|b|, y)]] + Window(b, Next(|b|, Next(|b|, y)), 0));
  }

  /** What `mainQSort3` does to the places of a small bucket. */
  lemma RearrangedMoved(b: seq<byte>, p: seq<int>, p': seq<int>, f: seq<int>, k: int)
    requires Bucketed(b, p, f) && 0 <= k < 65536 && Rearranged(p, p', f[k], f[k + 1] - 1)
    ensures Moved(b, p, p', f, k) && Inside(p', |b|)
  {
    assert f[0] <= f[k] <= f[k + 1] <= f[65536];
    var (lo, hi) := (f[k], f[k + 1] - 1);
    SameLength(p, p', lo, hi);
    forall i, j | lo <= i < j <= hi ensures p[i] != p[j] {}
    RearrangedForm(b, p, p', lo, hi);
  }

  lemma RearrangedForm(b: seq<byte>, p: seq<int>, p': seq<int>, lo: int, hi: int)
    requires 0 <= lo <= hi + 1 <= |p| == |p'| && Inside(p, |b|) && Rearranged(p, p', lo, hi)
    requires forall i, j :: lo <= i < j <= hi ==> p[i] != p[j]
    ensures SameForm(b, p[lo..hi + 1], p'[lo..hi + 1]) && Inside(p', |b|)
    ensures forall i :: 0 <= i < |p| && !(lo <= i <= hi) ==> p'[i] == p[i]
  {
    var (q, r) := (p[lo..hi + 1], p'[lo..hi + 1]);
    forall i | 0 <= i < |r| ensures r[i] in q {
      var m := CameFrom(p, p', lo, hi, lo + i);
      assert q[m - lo] == r[i];
    }
    forall i, j | 0 <= i < j < |r| ensures r[i] != r[j] { DistinctStays(p, p', lo, hi, lo + i, lo + j); }
    forall i | 0 <= i < |p'| ensures 0 <= p'[i] < |b| {
      if lo <= i <= hi { var m := CameFrom(p, p', lo, hi, i); }
    }
  }

  lemma SortedReplaced(b: seq<byte>, p: seq<int>, p': seq<int>, f: seq<int>, k: int)
    requires Moved(b, p, p', f, k) && Indexes(p', Keys(b)) && SortedBy(p', Keys(b), f[k], f[k + 1] - 1)
    ensures Replaced(b, p, p', f, k)
  {
    var r := p'[f[k]..f[k + 1]];
    hide Keys, LexLe, Rotation;
    forall i, j | 0 <= i <= j < |r| ensures LexLe(Rotation(b, r[i]), Rotation(b, r[j])) {
      assert KeyAt(p', Keys(b), f[k] + i) <= KeyAt(p', Keys(b), f[k] + j);
      KeysLex(b, r[i], r[j]);
    }
  }

  lemma KeysLex(b: seq<byte>, x: int, y: int)
    requires 0 <= x < |b| && 0 <= y < |b|
    ensures LexLe(Rotation(b, x), Rotation(b, y)) <==> Keys(b)[x] <= Keys(b)[y]
  {
    WindowIsRotation(b, x);
    WindowIsRotation(b, y);
    CodeOrder(Rotation(b, x), Rotation(b, y));
  }

  /** One small bucket of step 1. */
  method SortOne(ptr: array<int>, over: seq<byte>, quad: seq<int>, nblock: int, ftab: array<int>, ss: int, j: int,
      budget0: int, ghost block: seq<byte>, ghost f: seq<int>, ghost done: seq<bool>)
    returns (budget: int)
    requires ptr != ftab && 0 <= ss < 256 && 0 <= j < 256 && j != ss && ptr.Length <= 1000000
    requires Comparable(block, over, quad) && nblock == |block| && budget0 >= 0
    requires Going(block, ptr[..], f, ftab[..], done) && |ftab[..]| == 65537 && MarkedUpTo(ftab[..], ss, j)
    modifies ptr, ftab
    ensures budget >= 0 ==>
              Going(block, ptr[..], f, ftab[..], done) && |ftab[..]| == 65537 && MarkedUpTo(ftab[..], ss, j + 1)
    ensures budget < 0 ==> Bucketed(block, ptr[..], f)
    ensures Spent(block, budget0, budget)
  {
    hide *;
    SpentOn(block, budget0, budget0, budget0);
    ghost var (p, tab) := (ptr[..], ftab[..]);
    var sb := 256 * ss + j;
    GoingHas(block, p, f, tab, done, sb);
    budget := budget0;
    if !IsSet(ftab[sb]) {
      var lo, hi := Clear(ftab[sb]), Clear(ftab[sb + 1]) - 1;
      if hi > lo {
        SmallShares(block, p, f, sb);
        budget := MainQSort3(ptr, over, quad, nblock, lo, hi, BZ_N_RADIX, budget, block);
        RearrangedMoved(block, p, ptr[..], f, sb);
        if budget < 0 {
          MovedBucketed(block, p, ptr[..], f, sb);
          return;
        }
        SortedReplaced(block, p, ptr[..], f, sb);
      }
    }
    RowStep(block, p, ptr[..], f, tab, done, ss, j);
    ftab[sb] := Set(ftab[sb]);
    assert ftab[..] == tab[sb := Set(tab[sb])];
  }

  /** Step 1: the small buckets [ss, j], j != ss, as far as they are not marked. */
  method SortRow(ptr: array<int>, over: seq<byte>, quad: seq<int>, nblock: int, ftab: array<int>, ss: int,
      budget0: int, ghost block: seq<byte>, ghost f: seq<int>, ghost done: seq<bool>)
    returns (budget: int)
    requires ptr != ftab && 0 <= ss < 256 && ftab.Length == 65537 && ptr.Length <= 1000000
    requires Comparable(block, over, quad) && nblock == |block| && budget0 >= 0
    requires Going(block, ptr[..], f, ftab[..], done)
    modifies ptr, ftab
    ensures budget >= 0 ==> Going(block, ptr[..], f, ftab[..], done) && MarkedUpTo(ftab[..], ss, 256)
    ensures budget < 0 ==> Bucketed(block, ptr[..], f)
    ensures Spent(block, budget0, budget)
  {
    hide *;
    SpentOn(block, budget0, budget0, budget0);
    NothingMarked(ftab[..], ss);
    budget := budget0;
    for j := 0 to 256
      invariant Going(block, ptr[..], f, ftab[..], done) && MarkedUpTo(ftab[..], ss, j) && budget >= 0
      invariant Spent(block, budget0, budget)
    {
      if j != ss {
        ghost var left := budget;
        budget := SortOne(ptr, over, quad, nblock, ftab, ss, j, budget, block, f, done);
        SpentOn(block, budget0, left, budget);
        if budget < 0 { return; }
      } else {
        MarkedPast(ftab[..], ss);
      }
    }
  }

  lemma NothingMarked(ftab: seq<int>, ss: int)
    requires |ftab| == 65537 && 0 <= ss < 256
    ensures MarkedUpTo(ftab, ss, 0)
  {
  }

  lemma MarkedPast(ftab: seq<int>, ss: int)
    requires |ftab| == 65537 && 0 <= ss < 256 && MarkedUpTo(ftab, ss, ss)
    ensures MarkedUpTo(ftab, ss, ss + 1)
  {
  }

  // ------------------------------------------------------------ the main loop

  /** After step 1 step 2 may begin. */
  lemma GetsReady(b: seq<byte>, p: seq<int>, f: seq<int>, ftab: seq<int>, done: seq<bool>, ss: int)
    requires Going(b, p, f, ftab, done) && 0 <= ss < 256 && MarkedUpTo(ftab, ss, 256) && !done[ss]
    ensures Ready(b, p, f, done, ss) && Table(ftab, f)
  {
    hide InOrderAt, Bucketed, Table;
    forall j | 0 <= j < 256 && j != ss ensures InOrderAt(b, p, f, ss, j) {
      assert Marked(ftab, ss, j) && MarkHolds(b, p, f, ftab, ss, j);
    }
    assert Inside(p, |b|);
  }

  /** A bucket that step 2 does not touch: another column, or a finished row. */
  lemma ColumnKeeps(b: seq<byte>, p0: seq<int>, p: seq<int>, f: seq<int>, done: seq<bool>, ss: int, c: int, d: int)
    requires ColumnSorted(b, p0, p, f, done, ss) && Bucketed(b, p0, f) && 0 <= c < 256 && 0 <= d < 256
    requires InOrderAt(b, p0, f, c, d) && (d != ss || done[c])
    ensures InOrderAt(b, p, f, c, d)
  {
    forall i | 0 <= i < |p| && f[256 * c + d] <= i < f[256 * c + d + 1] ensures p[i] == p0[i] {
      assert PairOf(b, p0[i]) == 256 * c + d;
    }
    OrderKept(b, p0, p, f, c, d);
  }

  lemma MarksAfter(b: seq<byte>, p0: seq<int>, p: seq<int>, f: seq<int>, ftab0: seq<int>, ftab: seq<int>,
      done: seq<bool>, ss: int, c: int, d: int)
    requires Going(b, p0, f, ftab0, done) && 0 <= ss < 256 && 0 <= c < 256 && 0 <= d < 256
    requires ColumnSorted(b, p0, p, f, done, ss) && |ftab| == 65537
    requires forall k :: 0 <= k < 65537 ==> (IsSet(ftab[k]) <==> IsSet(ftab0[k]) || (k < 65536 && k % 256 == ss))
    ensures MarkHolds(b, p, f, ftab, c, d)
  {
    assert MarkHolds(b, p0, f, ftab0, c, d) && (256 * c + d) % 256 == d;
    hide InOrderAt, Bucketed, Untouched;
    if d == ss && done[c] { assert RowMarked(ftab0, c) && Marked(ftab0, c, d); }
    if IsSet(ftab[256 * c + d]) && (d != ss || done[c]) {
      ColumnKeeps(b, p0, p, f, done, ss, c, d);
    }
  }

  lemma RowsAfter(ftab0: seq<int>, ftab: seq<int>, done: seq<bool>, ss: int, c: int)
    requires |ftab0| == |ftab| == 65537 && |done| == 256 && 0 <= ss < 256 && 0 <= c < 256 && MarkedUpTo(ftab0, ss, 256)
    requires (done[c] ==> RowMarked(ftab0, c)) && (done[c] || c == ss)
    requires forall k :: 0 <= k < 65537 ==> (IsSet(ftab[k]) <==> IsSet(ftab0[k]) || (k < 65536 && k % 256 == ss))
    ensures RowMarked(ftab, c)
  {
    forall d | 0 <= d < 256 ensures Marked(ftab, c, d) {
      assert (256 * c + d) % 256 == d;
      if c == ss { assert d == ss || Marked(ftab0, ss, d); } else { assert Marked(ftab0, c, d); }
    }
  }

  lemma TurnDone(b: seq<byte>, p0: seq<int>, p: seq<int>, f: seq<int>, ftab0: seq<int>, ftab: seq<int>, done: seq<bool>,
      ss: int)
    requires Going(b, p0, f, ftab0, done) && 0 <= ss < 256 && MarkedUpTo(ftab0, ss, 256) && !done[ss]
    requires ColumnSorted(b, p0, p, f, done, ss) && Table(ftab, f)
    requires forall k :: 0 <= k < 65537 ==> (IsSet(ftab[k]) <==> IsSet(ftab0[k]) || (k < 65536 && k % 256 == ss))
    ensures Going(b, p, f, ftab, done[ss := true])
  {
    forall c, d | 0 <= c < 256 && 0 <= d < 256 ensures MarkHolds(b, p, f, ftab, c, d) {
      MarksAfter(b, p0, p, f, ftab0, ftab, done, ss, c, d);
    }
    forall c | 0 <= c < 256 && done[ss := true][c] ensures RowMarked(ftab, c) {
      RowsAfter(ftab0, ftab, done, ss, c);
    }
    hide Bucketed, MarkHolds, RowMarked, Untouched, Table;
  }

  /** Two places in finished big buckets are in order. */
  lemma DoneInOrder(b: seq<byte>, p: seq<int>, f: seq<int>, ftab: seq<int>, done: seq<bool>, i: int, j: int, k: int,
      m: int)
    requires Going(b, p, f, ftab, done) && 0 <= i <= j < |b| && 0 <= k < 65536 && 0 <= m < 65536
    requires f[k] <= i < f[k + 1] && f[m] <= j < f[m + 1] && done[k / 256] && done[m / 256]
    ensures |p| == |b| && 0 <= p[i] < |b| && 0 <= p[j] < |b| && LexLe(Rotation(b, p[i]), Rotation(b, p[j]))
  {
    assert PairOf(b, p[i]) == k && PairOf(b, p[j]) == m;
    RegionsInOrder(f, |b|, i, j, k, m);
    if k == m {
      var (c, d) := (k / 256, k % 256);
      assert RowMarked(ftab, c) && Marked(ftab, c, d) && MarkHolds(b, p, f, ftab, c, d);
    } else {
      PairsOrdered(b, p[i], p[j]);
    }
  }

  /** All turns done: every small bucket is in order, and so is the whole. */
  lemma AllInOrder(b: seq<byte>, p: seq<int>, f: seq<int>, ftab: seq<int>, done: seq<bool>)
    requires Going(b, p, f, ftab, done) && forall c :: 0 <= c < 256 ==> done[c]
    ensures SortsRotations(b, p)
  {
    forall i, j | 0 <= i <= j < |b| ensures LexLe(Rotation(b, p[i]), Rotation(b, p[j])) {
      var k := RegionOf(f, |b|, i, 0, 65536);
      var m := RegionOf(f, |b|, j, 0, 65536);
      DoneInOrder(b, p, f, ftab, done, i, j, k, m);
    }
  }

  /** A finished big bucket is in order. */
  lemma DoneBig(b: seq<byte>, p: seq<int>, f: seq<int>, ftab: seq<int>, done: seq<bool>, ss: int)
    requires Going(b, p, f, ftab, done) && 0 <= ss < 256 && done[ss]
    ensures BigInOrder(b, p, f, ss) && Bucketed(b, p, f)
  {
    assert f[0] <= f[256 * ss] <= f[256 * ss + 256] <= f[65536];
    hide LexLe, Rotation, Keys;
    forall i, j | f[256 * ss] <= i <= j < f[256 * ss + 256] ensures Keys(b)[p[i]] <= Keys(b)[p[j]] {
      var k := RegionOf(f, |b|, i, 256 * ss, 256 * ss + 256);
      var m := RegionOf(f, |b|, j, 256 * ss, 256 * ss + 256);
      DoneInOrder(b, p, f, ftab, done, i, j, k, m);
      KeysLex(b, p[i], p[j]);
    }
  }

  lemma PairsOrdered(b: seq<byte>, x: int, y: int)
    requires 0 <= x < |b| && 0 <= y < |b| && PairOf(b, x) < PairOf(b, y)
    ensures LexLe(Rotation(b, x), Rotation(b, y))
  {
    KeysRank(b);
    assert RanksMove(b, Keys(b), x, y) && RanksMove(b, Keys(b), Next(|b|, x), Next(|b|, y));
    WindowIsRotation(b, x);
    WindowIsRotation(b, y);
    CodeOrder(Rotation(b, x), Rotation(b, y));
  }

  lemma GoingStarts(b: seq<byte>, p: seq<int>)
    requires 0 < |b| < SETMASK && Bucketed(b, p, FirstPlaces(b))
    ensures Going(b, p, FirstPlaces(b), FirstPlaces(b), seq(256, _ => false))
  {
    var f := FirstPlaces(b);
    PlacesStart(b);
    hide FirstPlaces;
    forall k | 0 <= k < 65537 ensures 0 <= f[k] < SETMASK && Clear(f[k]) == f[k] && !IsSet(f[k]) {
      assert f[0] <= f[k] <= f[65536];
    }
  }

  lemma NotDoneYet(order: seq<int>, done: seq<bool>, i: int) returns (done': seq<bool>)
    requires IsPerm(order, 256) && |done| == 256 && 0 <= i < 256
    requires forall c :: 0 <= c < 256 ==> (done[c] <==> c in order[..i])
    ensures 0 <= order[i] < 256 && !done[order[i]] && done' == done[order[i] := true]
    ensures forall c :: 0 <= c < 256 ==> (done'[c] <==> c in order[..i + 1])
  {
    done' := done[order[i] := true];
    assert order[..i + 1] == order[..i] + [order[i]];
  }

  lemma AllDone(order: seq<int>, done: seq<bool>)
    requires IsPerm(order, 256) && |done| == 256 && forall c :: 0 <= c < 256 ==> (done[c] <==> c in order[..256])
    ensures forall c :: 0 <= c < 256 ==> done[c]
  {
    assert order[..256] == order;
    forall c | 0 <= c < 256 ensures done[c] { PermOnto(order, 256, c); }
  }

  /**
   * One turn: step 1, assertion 1006, step 2, and step 3 unless this is the last turn; given up with a budget below 0.
   */
  method OneTurn(ptr: array<int>, block: seq<byte>, over: seq<byte>, quadrant: array<int>, ftab: array<int>,
      bigDone: seq<bool>, ss: int, i: int, budget0: int, ghost f: seq<int>)
    returns (budget: int)
    requires ptr != ftab && ptr != quadrant && ftab != quadrant && ptr.Length <= 1000000
    requires 0 <= ss < 256 && ftab.Length == 65537 && |bigDone| == 256 && !bigDone[ss] && budget0 >= 0
    requires Comparable(block, over, quadrant[..]) && Going(block, ptr[..], f, ftab[..], bigDone)
    modifies ptr, ftab, quadrant
    ensures budget >= 0 ==>
              Comparable(block, over, quadrant[..]) && Going(block, ptr[..], f, ftab[..], bigDone[ss := true])
    ensures budget >= 0 && i < 255 ==> Updated(block, over, old(quadrant[..]), quadrant[..], ptr[..], f, ss)
    ensures Spent(block, budget0, budget)
  {
    hide *;
    budget := SortRow(ptr, over, quadrant[..], |block|, ftab, ss, budget0, block, f, bigDone);
    if budget < 0 { return; }
    ghost var (p, tab) := (ptr[..], ftab[..]);
    GetsReady(block, p, f, tab, bigDone, ss);
    var met, plain := CopyStep(ptr, block, ftab, bigDone, ss, f);
    TurnDone(block, p, ptr[..], f, tab, ftab[..], bigDone, ss);
    if i < 255 {
      Cache(ptr, quadrant, |block|, ftab, ss, block, over, f, bigDone[ss := true]);
    }
  }

  /** Step 3. */
  method Cache(ptr: array<int>, quadrant: array<int>, nblock: int, ftab: array<int>, ss: int, ghost block: seq<byte>,
      ghost over: seq<byte>, ghost f: seq<int>, ghost done: seq<bool>)
    requires ptr != quadrant && ftab != quadrant && ftab.Length == 65537 && 0 <= ss < 256 && nblock == |block|
    requires Comparable(block, over, quadrant[..]) && Going(block, ptr[..], f, ftab[..], done) && |done| == 256
             && done[ss]
    modifies quadrant
    ensures Comparable(block, over, quadrant[..])
    ensures Updated(block, over, old(quadrant[..]), quadrant[..], ptr[..], f, ss)
  {
    hide *;
    ghost var q0 := quadrant[..];
    GoingHas(block, ptr[..], f, ftab[..], done, 256 * ss);
    GoingHas(block, ptr[..], f, ftab[..], done, 256 * ss + 255);
    DoneBig(block, ptr[..], f, ftab[..], done, ss);
    var bbStart := Clear(ftab[256 * ss]);
    var bbSize := Clear(ftab[256 * (ss + 1)]) - bbStart;
    var shifts := UpdateQuadrants(ptr, quadrant, nblock, bbStart, bbSize, block, over, f, ss);
    UpdatedBy(block, over, q0, quadrant[..], ptr[..], f, ss, shifts);
  }

  /** The quadrants number the places of big bucket `ss`; all others are as they were. */
  ghost predicate Updated(b: seq<byte>, over: seq<byte>, q0: seq<int>, q: seq<int>, p: seq<int>, f: seq<int>, ss: int) {
    exists shifts: nat :: Numbering(b, over, q0, q, p, f, ss, 0, shifts)
  }

  lemma UpdatedBy(b: seq<byte>, over: seq<byte>, q0: seq<int>, q: seq<int>, p: seq<int>, f: seq<int>, ss: int,
      shifts: nat)
    requires Numbering(b, over, q0, q, p, f, ss, 0, shifts)
    ensures Updated(b, over, q0, q, p, f, ss)
  {
    hide Numbering;
  }

  /** The bucket sort that `mainSort` begins with. */
  method BucketSort(ptr: array<int>, block: seq<byte>) returns (ftab: array<int>)
    requires 0 < |block| == ptr.Length
    modifies ptr
    ensures fresh(ftab) && ftab.Length == 65537 && Bucketed(block, ptr[..], FirstPlaces(block))
            && ftab[..] == FirstPlaces(block)
  {
    ftab := new int[65537];
    CountPairs(block, ftab);
    Cumulate(block, ftab);
    PlacePairs(block, ptr, ftab);
  }

  lemma SpentAll(b: seq<byte>, budget0: int, budget: int)
    requires Spent(b, budget0, budget) && budget < 0 <= budget0
    ensures Repeats(b)
  {
  }

  /** No quadrants yet, and the beginning of the block repeated after its end. */
  lemma NothingCached(b: seq<byte>, over: seq<byte>, quad: seq<int>)
    requires BZ_N_OVERSHOOT < |b| && over == b + b[..BZ_N_OVERSHOOT] && |quad| == |over|
    requires forall i :: 0 <= i < |quad| ==> quad[i] == 0
    ensures Comparable(b, over, quad)
  {
    hide Keys;
  }

  /**
   * `mainSort`: unless the budget of comparisons is used up, the rotations of the block are sorted; it is not used up
   * if no twelve bytes of the block occur twice. The block is longer than the part of it that is repeated after its
   * end.
   */
  method MainSort(ptr: array<int>, block: seq<byte>, budget0: int) returns (budget: int)
    requires BZ_N_OVERSHOOT < |block| == ptr.Length <= 1000000 && budget0 >= 0
    modifies ptr
    ensures budget >= 0 ==> SortsRotations(block, ptr[..])
    ensures budget < 0 ==> Repeats(block)
  {
    var over := block + block[..BZ_N_OVERSHOOT];
    var quadrant := new int[|block| + BZ_N_OVERSHOOT](_ => 0);
    NothingCached(block, over, quadrant[..]);
    assert SETMASK == 0x20_0000 && BZ_N_OVERSHOOT == 34;
    hide *;
    var ftab := BucketSort(ptr, block);
    ghost var f := FirstPlaces(block);
    var runningOrder := RunningOrder(ftab);
    var bigDone := seq(256, _ => false);
    GoingStarts(block, ptr[..]);
    SpentOn(block, budget0, budget0, budget0);
    ghost var order := runningOrder[..];
    budget := budget0;
    for i := 0 to 256
      modifies ptr, ftab, quadrant
      invariant runningOrder[..] == order && Going(block, ptr[..], f, ftab[..], bigDone) && |bigDone| == 256
      invariant forall c :: 0 <= c < 256 ==> (bigDone[c] <==> c in order[..i])
      invariant Comparable(block, over, quadrant[..]) && budget >= 0 && Spent(block, budget0, budget)
    {
      ghost var done := NotDoneYet(order, bigDone, i);
      var ss := runningOrder[i];
      ghost var left := budget;
      budget := OneTurn(ptr, block, over, quadrant, ftab, bigDone, ss, i, budget, f);
      SpentOn(block, budget0, left, budget);
      if budget < 0 {
        SpentAll(block, budget0, budget);
        return;
      }
      bigDone := bigDone[ss := true];
    }
    AllDone(order, bigDone);
    AllInOrder(block, ptr[..], f, ftab[..], bigDone);
  }
}
