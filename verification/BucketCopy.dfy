/**
 * Step 2 of `mainSort`: scanning one finished big bucket from both ends synthesises, for every byte t, the order of
 * the small bucket [t, ss], the bucket [ss, ss] that is being scanned included.
 */
module BucketCopy {
  import opened Base
  import opened Rotations
  import opened BurrowsWheeler

  // ------------------------------------------------------------ lists of positions

  ghost predicate Inside(q: seq<int>, n: nat) {
    forall i :: 0 <= i < |q| ==> 0 <= q[i] < n
  }

  ghost predicate Distinct(q: seq<int>) {
    forall i, j :: 0 <= i < j < |q| ==> q[i] != q[j]
  }

  /** Rotation order, read upwards or downwards. */
  ghost predicate Le(rank: seq<int>, up: bool, x: int, y: int)
    requires 0 <= x < |rank| && 0 <= y < |rank|
  {
    if up then rank[x] <= rank[y] else rank[y] <= rank[x]
  }

  ghost predicate InOrder(rank: seq<int>, up: bool, q: seq<int>)
    requires Inside(q, |rank|)
  {
    forall i, j :: 0 <= i <= j < |q| ==> Le(rank, up, q[i], q[j])
  }

  /** What scanning `q` writes for byte `c`: the positions one before those of `q`, where that byte is `c`. */
  ghost function Out(b: seq<byte>, q: seq<int>, c: int): (o: seq<int>)
    requires Inside(q, |b|)
    ensures |o| <= |q|
  {
    if q == [] then []
    else
      var k := Prev(|b|, q[|q| - 1]);
      Out(b, q[..|q| - 1], c) + if b[k] as int == c then [k] else []
  }

  lemma OutNext(b: seq<byte>, q: seq<int>, x: int, c: int)
    requires Inside(q, |b|) && 0 <= x < |b|
    ensures Inside(q + [x], |b|)
    ensures Out(b, q + [x], c) == Out(b, q, c) + if b[Prev(|b|, x)] as int == c then [Prev(|b|, x)] else []
  {
    assert (q + [x])[..|q|] == q;
  }

  /** A position is written just when its successor was scanned and its byte is `c`. */
  lemma {:induction false} OutHas(b: seq<byte>, q: seq<int>, c: int, k: int)
    requires Inside(q, |b|) && 0 <= k < |b|
    ensures k in Out(b, q, c) <==> Next(|b|, k) in q && b[k] as int == c
  {
    if q != [] {
      var t := q[..|q| - 1];
      OutHas(b, t, c, k);
      assert q == t + [q[|q| - 1]];
      PrevNext(|b|, k, q[|q| - 1]);
    }
  }

  lemma PrevNext(n: nat, k: int, x: int)
    requires 0 <= k < n && 0 <= x < n
    ensures Next(n, k) == x <==> k == Prev(n, x)
  {
  }

  lemma {:induction false} OutInside(b: seq<byte>, q: seq<int>, c: int)
    requires Inside(q, |b|)
    ensures Inside(Out(b, q, c), |b|)
  {
    if q != [] {
      OutInside(b, q[..|q| - 1], c);
    }
  }

  /** Scanning distinct positions in order writes distinct positions in order. */
  lemma {:induction false} OutOrdered(b: seq<byte>, rank: seq<int>, up: bool, q: seq<int>, c: int)
    requires IsRank(b, rank) && Inside(q, |b|) && Distinct(q) && InOrder(rank, up, q)
    ensures Inside(Out(b, q, c), |b|) && Distinct(Out(b, q, c)) && InOrder(rank, up, Out(b, q, c))
  {
    OutInside(b, q, c);
    if q != [] {
      var t, x := q[..|q| - 1], q[|q| - 1];
      OutOrdered(b, rank, up, t, c);
      if b[Prev(|b|, x)] as int == c {
        var o, k := Out(b, t, c), Prev(|b|, x);
        forall i | 0 <= i < |o| ensures o[i] != k && Le(rank, up, o[i], k) {
          Earlier(b, rank, up, t, x, c, o[i]);
        }
        AppendOrdered(rank, up, o, k);
      }
    }
  }

  lemma Earlier(b: seq<byte>, rank: seq<int>, up: bool, t: seq<int>, x: int, c: int, y: int)
    requires IsRank(b, rank) && Inside(t + [x], |b|) && Distinct(t + [x]) && InOrder(rank, up, t + [x])
    requires Inside(t, |b|) && y in Out(b, t, c) && 0 <= y < |b| && 0 <= x < |b| && b[Prev(|b|, x)] as int == c
    ensures y != Prev(|b|, x) && Le(rank, up, y, Prev(|b|, x))
  {
    var k := Prev(|b|, x);
    OutHas(b, t, c, y);
    var m :| 0 <= m < |t| && t[m] == Next(|b|, y);
    assert (t + [x])[m] == t[m] && (t + [x])[|t|] == x;
    assert RanksMove(b, rank, y, k) && RanksMove(b, rank, k, y);
  }

  lemma AppendOrdered(rank: seq<int>, up: bool, o: seq<int>, k: int)
    requires Inside(o, |rank|) && 0 <= k < |rank| && Distinct(o) && InOrder(rank, up, o)
    requires forall i :: 0 <= i < |o| ==> o[i] != k && Le(rank, up, o[i], k)
    ensures Inside(o + [k], |rank|) && Distinct(o + [k]) && InOrder(rank, up, o + [k])
  {
  }

  // ------------------------------------------------------------ the queue inside the big bucket

  /** The rotation one place further on comes strictly before; read downwards, strictly after. */
  ghost predicate Falls(b: seq<byte>, rank: seq<int>, up: bool, x: int)
    requires |rank| == |b| && 0 <= x < |b|
  {
    var y := Next(|b|, x);
    if up then rank[y] < rank[x] else rank[x] < rank[y]
  }

  /**
   * The positions scanned first: their byte is `ss`, the next byte is another one, on the side the scan starts from.
   */
  ghost predicate FirstPart(b: seq<byte>, rank: seq<int>, up: bool, ss: int, first: seq<int>)
    requires |rank| == |b|
  {
    && Inside(first, |b|) && Distinct(first) && InOrder(rank, up, first)
    && forall i :: 0 <= i < |first| ==> Starter(b, up, ss, first[i])
  }

  ghost predicate Starter(b: seq<byte>, up: bool, ss: int, x: int)
    requires 0 <= x < |b|
  {
    b[x] as int == ss && if up then b[Next(|b|, x)] as int < ss else b[Next(|b|, x)] as int > ss
  }

  /**
   * The scan has read `q`; `full` is what it will read if it stops now: the first part, and what it wrote into the
   * bucket [ss, ss] itself. All of it is in order, distinct, and falls.
   */
  ghost predicate Queue(b: seq<byte>, rank: seq<int>, up: bool, ss: int, first: seq<int>, q: seq<int>, full: seq<int>)
    requires |rank| == |b|
  {
    && FirstPart(b, rank, up, ss, first) && Inside(full, |b|) && q <= full && Inside(q, |b|)
    && full == first + Out(b, q, ss) && Distinct(full) && InOrder(rank, up, full)
    && forall i :: 0 <= i < |full| ==> InBucket(b, rank, up, ss, full[i])
  }

  ghost predicate InBucket(b: seq<byte>, rank: seq<int>, up: bool, ss: int, x: int)
    requires |rank| == |b| && 0 <= x < |b|
  {
    b[x] as int == ss && Falls(b, rank, up, x)
  }

  lemma StarterFalls(b: seq<byte>, rank: seq<int>, up: bool, ss: int, x: int)
    requires IsRank(b, rank) && 0 <= x < |b| && Starter(b, up, ss, x)
    ensures InBucket(b, rank, up, ss, x)
  {
    assert RanksMove(b, rank, x, Next(|b|, x)) && RanksMove(b, rank, Next(|b|, x), x);
  }

  lemma QueueStarts(b: seq<byte>, rank: seq<int>, up: bool, ss: int, first: seq<int>)
    requires IsRank(b, rank) && FirstPart(b, rank, up, ss, first)
    ensures Queue(b, rank, up, ss, first, [], first)
  {
    assert first + [] == first;
    forall i | 0 <= i < |first| ensures InBucket(b, rank, up, ss, first[i]) {
      StarterFalls(b, rank, up, ss, first[i]);
    }
  }

  /** The position before a falling one, with the same byte, falls too, and comes after every starter. */
  lemma FallsBack(b: seq<byte>, rank: seq<int>, up: bool, ss: int, x: int)
    requires IsRank(b, rank) && 0 <= x < |b| && InBucket(b, rank, up, ss, x) && b[Prev(|b|, x)] as int == ss
    ensures InBucket(b, rank, up, ss, Prev(|b|, x))
    ensures forall y :: 0 <= y < |b| && Starter(b, up, ss, y) ==> y != Prev(|b|, x) && Le(rank, up, y, Prev(|b|, x))
  {
    var k := Prev(|b|, x);
    assert RanksMove(b, rank, x, k) && RanksMove(b, rank, k, x);
    forall y | 0 <= y < |b| && Starter(b, up, ss, y) ensures y != k && Le(rank, up, y, k) {
      var z := Next(|b|, y);
      assert RanksMove(b, rank, z, x) && RanksMove(b, rank, x, z);
      assert RanksMove(b, rank, y, k) && RanksMove(b, rank, k, y);
    }
  }

  lemma PrefixOrdered(rank: seq<int>, up: bool, full: seq<int>, m: nat)
    requires Inside(full, |rank|) && Distinct(full) && InOrder(rank, up, full) && m <= |full|
    ensures Inside(full[..m], |rank|) && Distinct(full[..m]) && InOrder(rank, up, full[..m])
  {
  }

  lemma QueueMoves(b: seq<byte>, rank: seq<int>, up: bool, ss: int, first: seq<int>, q: seq<int>, full: seq<int>)
    requires IsRank(b, rank) && Queue(b, rank, up, ss, first, q, full) && |q| < |full|
    ensures var x := full[|q|];
            var k := Prev(|b|, x);
            && 0 <= x < |b| && q + [x] <= full
            && Queue(b, rank, up, ss, first, q + [x], if b[k] as int == ss then full + [k] else full)
  {
    var x := full[|q|];
    var k := Prev(|b|, x);
    var q' := q + [x];
    assert q' == full[..|q| + 1];
    PrefixOrdered(rank, up, full, |q| + 1);
    OutNext(b, q, x, ss);
    if b[k] as int == ss {
      var o := Out(b, q, ss);
      OutOrdered(b, rank, up, q', ss);
      FallsBack(b, rank, up, ss, x);
      assert Out(b, q', ss) == o + [k] && full == first + o;
      AddedLast(b, rank, up, ss, first, o, k);
      assert full + [k] == first + (o + [k]);
      hide Out, InOrder, Distinct, FirstPart, IsRank;
    }
  }

  lemma AddedLast(b: seq<byte>, rank: seq<int>, up: bool, ss: int, first: seq<int>, o: seq<int>, k: int)
    requires |rank| == |b| && FirstPart(b, rank, up, ss, first) && 0 <= k < |b|
    requires Inside(first + o, |b|) && Distinct(first + o) && InOrder(rank, up, first + o)
    requires Inside(o + [k], |b|) && Distinct(o + [k]) && InOrder(rank, up, o + [k])
    requires forall y :: 0 <= y < |b| && Starter(b, up, ss, y) ==> y != k && Le(rank, up, y, k)
    ensures Inside(first + o + [k], |b|) && Distinct(first + o + [k]) && InOrder(rank, up, first + o + [k])
  {
    var full := first + o;
    forall i | 0 <= i < |full| ensures full[i] != k && Le(rank, up, full[i], k) {
      if i < |first| {
        assert full[i] == first[i] && Starter(b, up, ss, first[i]);
      } else {
        assert full[i] == (o + [k])[i - |first|] && (o + [k])[|o|] == k;
      }
    }
    AppendOrdered(rank, up, full, k);
  }

  /** When the scan has caught up with its own writing, every falling position of the bucket has been read. */
  lemma {:induction false} AllFound(b: seq<byte>, rank: seq<int>, up: bool, ss: int, first: seq<int>, full: seq<int>,
      top: nat, y: int)
    requires IsRank(b, rank) && Queue(b, rank, up, ss, first, full, full) && 0 <= y < |b|
             && InBucket(b, rank, up, ss, y)
    requires forall x :: 0 <= x < |b| && Starter(b, up, ss, x) ==> x in first
    requires forall x :: 0 <= x < |b| ==> 0 <= rank[x] <= top
    ensures y in full
    decreases if up then rank[y] else top - rank[y]
  {
    var z := Next(|b|, y);
    assert RanksMove(b, rank, y, z) && RanksMove(b, rank, z, y);
    if b[z] as int == ss {
      AllFound(b, rank, up, ss, first, full, top, z);
      OutHas(b, full, ss, y);
      var m :| 0 <= m < |Out(b, full, ss)| && Out(b, full, ss)[m] == y;
      assert full[|first| + m] == y;
    } else {
      assert Starter(b, up, ss, y);
      var m :| 0 <= m < |first| && first[m] == y;
      assert full[m] == y;
    }
  }

  /** What falls comes before what rises. */
  lemma {:induction false} FallingFirst(b: seq<byte>, rank: seq<int>, ss: int, x: int, y: int)
    requires IsRank(b, rank) && 0 <= x < |b| && 0 <= y < |b|
    requires InBucket(b, rank, true, ss, x) && InBucket(b, rank, false, ss, y)
             && (forall i :: 0 <= i < |b| ==> 0 <= rank[i])
    ensures rank[x] <= rank[y] && x != y
    decreases rank[x]
  {
    var u, v := Next(|b|, x), Next(|b|, y);
    assert RanksMove(b, rank, x, y) && RanksMove(b, rank, u, v);
    assert RanksMove(b, rank, x, u) && RanksMove(b, rank, v, y) && RanksMove(b, rank, y, v) && RanksMove(b, rank, u, x);
    if b[u] as int == ss && b[v] as int == ss {
      FallingFirst(b, rank, ss, u, v);
    }
  }

  /** A rotation equal to the next one: the block is one byte over and over. */
  lemma {:induction false} OneByte(b: seq<byte>, rank: seq<int>, x: int, h: nat)
    requires IsRank(b, rank) && 0 <= x < |b| && rank[Next(|b|, x)] == rank[x]
    ensures var y := Advance(|b|, x, h); b[y] == b[x] && rank[y] == rank[x]
    decreases h
  {
    if h > 0 {
      assert RanksMove(b, rank, x, Next(|b|, x));
      OneByte(b, rank, Next(|b|, x), h - 1);
    }
  }

  lemma OneByteAll(b: seq<byte>, rank: seq<int>, x: int, y: int)
    requires IsRank(b, rank) && 0 <= x < |b| && rank[Next(|b|, x)] == rank[x] && 0 <= y < |b|
    ensures b[y] == b[x] && rank[y] == rank[x]
  {
    var h: nat := if y >= x then y - x else y - x + |b|;
    AdvanceIsShift(|b|, x, h);
    OneByte(b, rank, x, h);
  }

  // ------------------------------------------------------------ small buckets

  /** The two bytes a rotation starts with, as the index of its small bucket. */
  function PairOf(b: seq<byte>, x: int): (k: int)
    requires 0 <= x < |b|
    ensures 0 <= k < 65536
  {
    256 * b[x] as int + b[Next(|b|, x)] as int
  }

  /** First places of the small buckets, and the end. */
  ghost predicate Starts(f: seq<int>, n: nat) {
    |f| == 65537 && f[0] == 0 && f[65536] == n && forall k, m :: 0 <= k <= m <= 65536 ==> f[k] <= f[m]
  }

  /** Every position stands in the small bucket of its first two bytes. */
  ghost predicate Bucketed(b: seq<byte>, p: seq<int>, f: seq<int>) {
    && IsPerm(p, |b|) && Starts(f, |b|)
    && forall k, i :: 0 <= k < 65536 && f[k] <= i < f[k + 1] ==> PairOf(b, p[i]) == k
  }

  /** One small bucket is in rotation order. */
  ghost predicate Sorted(rank: seq<int>, p: seq<int>, f: seq<int>, k: int)
    requires |f| == 65537 && 0 <= k < 65536 && Inside(p, |rank|)
  {
    0 <= f[k] && f[k + 1] <= |p| && forall i, j :: f[k] <= i <= j < f[k + 1] ==> rank[p[i]] <= rank[p[j]]
  }

  /** The small buckets of one big bucket, but for the one in the middle, are in rotation order. */
  ghost predicate RowSorted(rank: seq<int>, p: seq<int>, f: seq<int>, ss: int)
    requires |f| == 65537 && 0 <= ss < 256 && Inside(p, |rank|)
  {
    forall d :: 0 <= d < 256 && d != ss ==> SmallSorted(rank, p, f, ss, d)
  }

  ghost predicate SmallSorted(rank: seq<int>, p: seq<int>, f: seq<int>, c: int, d: int)
    requires |f| == 65537 && 0 <= c < 256 && 0 <= d < 256 && Inside(p, |rank|)
  {
    Sorted(rank, p, f, 256 * c + d)
  }

  lemma {:induction false} RegionOf(f: seq<int>, n: nat, i: int, bottom: nat, top: nat) returns (k: int)
    requires Starts(f, n) && bottom <= top <= 65536 && f[bottom] <= i < f[top]
    ensures bottom <= k < top && f[k] <= i < f[k + 1]
    decreases top
  {
    if f[top - 1] <= i { k := top - 1; } else { k := RegionOf(f, n, i, bottom, top - 1); }
  }

  /** Places in order lie in small buckets in order. */
  lemma RegionsInOrder(f: seq<int>, n: nat, i: int, j: int, k: int, m: int)
    requires Starts(f, n) && 0 <= k < 65536 && 0 <= m < 65536 && f[k] <= i < f[k + 1] && f[m] <= j < f[m + 1] && i <= j
    ensures k <= m
  {
  }

  /** A position with the two bytes of bucket `k` is found in bucket `k`. */
  lemma FoundInBucket(b: seq<byte>, p: seq<int>, f: seq<int>, x: int) returns (i: int)
    requires Bucketed(b, p, f) && 0 <= x < |b|
    ensures var k := PairOf(b, x); f[k] <= i < f[k + 1] && 0 <= i < |p| && p[i] == x
  {
    PermOnto(p, |b|, x);
    i :| 0 <= i < |p| && p[i] == x;
    var k := RegionOf(f, |b|, i, 0, 65536);
  }

  /** The positions of one small bucket. */
  ghost function BucketList(p: seq<int>, f: seq<int>, k: int): seq<int>
    requires Starts(f, |p|) && 0 <= k < 65536
  {
    assert f[0] <= f[k] <= f[k + 1] <= f[65536];
    p[f[k]..f[k + 1]]
  }

  lemma BucketContents(b: seq<byte>, p: seq<int>, f: seq<int>, k: int)
    requires Bucketed(b, p, f) && 0 <= k < 65536
    ensures Starts(f, |p|) && |BucketList(p, f, k)| == f[k + 1] - f[k] && Distinct(BucketList(p, f, k))
    ensures forall x :: x in BucketList(p, f, k) <==> 0 <= x < |b| && PairOf(b, x) == k
  {
    hide PairOf;
    var z := BucketList(p, f, k);
    assert f[0] <= f[k] <= f[k + 1] <= f[65536];
    forall i | 0 <= i < |z| ensures z[i] == p[f[k] + i] && 0 <= z[i] < |b| && PairOf(b, z[i]) == k {
    }
    forall x | 0 <= x < |b| && PairOf(b, x) == k ensures x in z {
      var m := FoundInBucket(b, p, f, x);
      assert z[m - f[k]] == x;
    }
  }

  /** Distinct values found in a list of distinct values are no more than it has. */
  lemma DistinctFit(o: seq<int>, z: seq<int>)
    requires Distinct(o) && Distinct(z) && forall x :: x in o ==> x in z
    ensures |o| <= |z|
  {
    DistinctSize(o);
    DistinctSize(z);
    SubsetSize(Elements(o), Elements(z));
  }

  /** Distinct positions with the bytes of one small bucket fit that bucket, and fill it if they are all of them. */
  lemma Capacity(b: seq<byte>, p: seq<int>, f: seq<int>, k: int, o: seq<int>)
    requires Bucketed(b, p, f) && 0 <= k < 65536 && Distinct(o) && Inside(o, |b|)
    requires forall i :: 0 <= i < |o| ==> PairOf(b, o[i]) == k
    ensures |o| <= f[k + 1] - f[k]
    ensures (forall x :: 0 <= x < |b| && PairOf(b, x) == k ==> x in o) ==> |o| == f[k + 1] - f[k]
  {
    BucketContents(b, p, f, k);
    hide Bucketed, Starts, BucketList, Distinct, PairOf;
    DistinctFit(o, BucketList(p, f, k));
    if forall x :: 0 <= x < |b| && PairOf(b, x) == k ==> x in o {
      DistinctFit(BucketList(p, f, k), o);
    }
  }

  /** What a scan of falling positions of big bucket `ss` writes for byte `c` belongs to bucket [c, ss]. */
  lemma OutBelongs(b: seq<byte>, q: seq<int>, ss: int, c: int)
    requires Inside(q, |b|) && 0 <= ss < 256 && 0 <= c < 256 && forall i :: 0 <= i < |q| ==> b[q[i]] as int == ss
    ensures Inside(Out(b, q, c), |b|)
    ensures forall i :: 0 <= i < |Out(b, q, c)| ==> PairOf(b, Out(b, q, c)[i]) == 256 * c + ss
  {
    OutInside(b, q, c);
    forall i | 0 <= i < |Out(b, q, c)| ensures PairOf(b, Out(b, q, c)[i]) == 256 * c + ss {
      var k := Out(b, q, c)[i];
      OutHas(b, q, c, k);
      var m :| 0 <= m < |q| && q[m] == Next(|b|, k);
    }
  }

  /** What both scans write for one byte is distinct. */
  lemma BothDistinct(b: seq<byte>, rank: seq<int>, ss: int, l: seq<int>, r: seq<int>, c: int)
    requires IsRank(b, rank) && Inside(l, |b|) && Inside(r, |b|) && Distinct(l) && Distinct(r)
    requires InOrder(rank, true, l) && InOrder(rank, false, r)
    requires forall i :: 0 <= i < |l| ==> InBucket(b, rank, true, ss, l[i])
    requires forall i :: 0 <= i < |r| ==> InBucket(b, rank, false, ss, r[i])
    ensures Distinct(Out(b, l, c) + Out(b, r, c))
  {
    var x, y := Out(b, l, c), Out(b, r, c);
    OutOrdered(b, rank, true, l, c);
    OutOrdered(b, rank, false, r, c);
    forall i, j | 0 <= i < |x| && 0 <= j < |y| ensures x[i] != y[j] {
      OutHas(b, l, c, x[i]);
      OutHas(b, r, c, y[j]);
      var s :| 0 <= s < |l| && l[s] == Next(|b|, x[i]);
      var t :| 0 <= t < |r| && r[t] == Next(|b|, y[j]);
    }
  }

  /** The small bucket of a place between two starts. */
  lemma PlaceKey(b: seq<byte>, p: seq<int>, f: seq<int>, i: int, k0: int, k1: int) returns (k: int)
    requires Bucketed(b, p, f) && 0 <= k0 <= k1 <= 65536 && f[k0] <= i < f[k1] && 0 <= i < |p|
    ensures k0 <= k < k1 && f[k] <= i < f[k + 1] && PairOf(b, p[i]) == k
  {
    k := RegionOf(f, |b|, i, k0, k1);
  }

  /** Places of one big bucket whose small buckets are sorted, below [ss, ss]. */
  lemma KeysOrdered(b: seq<byte>, rank: seq<int>, p: seq<int>, f: seq<int>, ss: int, i: int, j: int)
    requires IsRank(b, rank) && Bucketed(b, p, f) && 0 <= ss < 256 && f[256 * ss] <= i <= j < f[256 * ss + 256]
             && 0 <= i <= j < |p|
    requires RowSorted(rank, p, f, ss)
    requires PairOf(b, p[i]) != 257 * ss && PairOf(b, p[j]) != 257 * ss
    ensures rank[p[i]] <= rank[p[j]]
  {
    var k := PlaceKey(b, p, f, i, 256 * ss, 256 * ss + 256);
    var m := PlaceKey(b, p, f, j, 256 * ss, 256 * ss + 256);
    RegionsInOrder(f, |b|, i, j, k, m);
    if k == m {
      assert SmallSorted(rank, p, f, ss, k - 256 * ss);
    } else {
      assert RanksMove(b, rank, p[i], p[j]) && RanksMove(b, rank, Next(|b|, p[i]), Next(|b|, p[j]));
    }
  }

  lemma StartsBelow(b: seq<byte>, p: seq<int>, f: seq<int>, ss: int)
    requires Bucketed(b, p, f) && 0 <= ss < 256
    ensures 0 <= f[256 * ss] <= f[257 * ss] <= f[257 * ss + 1] <= f[256 * ss + 256] <= |p| == |b|
  {
    assert f[0] <= f[256 * ss] && f[256 * ss + 256] <= f[65536];
  }

  /** The places of big bucket `ss` before [ss, ss], and after it, hold exactly the starters of the two scans. */
  lemma StarterPlaces(b: seq<byte>, p: seq<int>, f: seq<int>, ss: int, up: bool, i: int)
    requires Bucketed(b, p, f) && 0 <= ss < 256 && 0 <= i < |p|
    requires if up then f[256 * ss] <= i < f[257 * ss] else f[257 * ss + 1] <= i < f[256 * ss + 256]
    ensures 0 <= p[i] < |b| && Starter(b, up, ss, p[i])
  {
    StartsBelow(b, p, f, ss);
    var k := PlaceKey(b, p, f, i, if up then 256 * ss else 257 * ss + 1, if up then 257 * ss else 256 * ss + 256);
  }

  lemma StarterFound(b: seq<byte>, p: seq<int>, f: seq<int>, ss: int, up: bool, x: int) returns (i: int)
    requires Bucketed(b, p, f) && 0 <= ss < 256 && 0 <= x < |b| && Starter(b, up, ss, x)
    ensures 0 <= i < |p| && p[i] == x
    ensures if up then f[256 * ss] <= i < f[257 * ss] else f[257 * ss + 1] <= i < f[256 * ss + 256]
  {
    i := FoundInBucket(b, p, f, x);
    var k := PairOf(b, x);
    assert f[256 * ss] <= f[k] && f[k + 1] <= f[256 * ss + 256]
        && (if up then f[k + 1] <= f[257 * ss] else f[257 * ss + 1] <= f[k]);
  }

  lemma StartersOrdered(b: seq<byte>, rank: seq<int>, p: seq<int>, f: seq<int>, ss: int, up: bool, i: int, j: int)
    requires IsRank(b, rank) && Bucketed(b, p, f) && 0 <= ss < 256 && RowSorted(rank, p, f, ss) && 0 <= i <= j < |p|
    requires if up then f[256 * ss] <= i && j < f[257 * ss] else f[257 * ss + 1] <= i && j < f[256 * ss + 256]
    ensures rank[p[i]] <= rank[p[j]]
  {
    StartsBelow(b, p, f, ss);
    StarterPlaces(b, p, f, ss, up, i);
    StarterPlaces(b, p, f, ss, up, j);
    KeysOrdered(b, rank, p, f, ss, i, j);
  }

  /** The small buckets [ss, d] below ss are a first part for the scan upwards. */
  lemma LeftFirst(b: seq<byte>, rank: seq<int>, p: seq<int>, f: seq<int>, ss: int)
    requires IsRank(b, rank) && Bucketed(b, p, f) && 0 <= ss < 256 && RowSorted(rank, p, f, ss)
    ensures 0 <= f[256 * ss] <= f[257 * ss] <= |p|
    ensures FirstPart(b, rank, true, ss, p[f[256 * ss]..f[257 * ss]])
    ensures forall x :: 0 <= x < |b| && Starter(b, true, ss, x) ==> x in p[f[256 * ss]..f[257 * ss]]
  {
    StartsBelow(b, p, f, ss);
    var lo, first := f[256 * ss], p[f[256 * ss]..f[257 * ss]];
    forall i | 0 <= i < |first| ensures 0 <= first[i] < |b| && Starter(b, true, ss, first[i]) {
      StarterPlaces(b, p, f, ss, true, lo + i);
    }
    forall i, j | 0 <= i <= j < |first| ensures Le(rank, true, first[i], first[j]) {
      StartersOrdered(b, rank, p, f, ss, true, lo + i, lo + j);
    }
    forall x | 0 <= x < |b| && Starter(b, true, ss, x) ensures x in first {
      var i := StarterFound(b, p, f, ss, true, x);
      assert first[i - lo] == x;
    }
    hide Starter, Le, RowSorted, IsRank;
    assert Distinct(first);
  }

  function Rev(s: seq<int>): (r: seq<int>)
    ensures |r| == |s| && forall i :: 0 <= i < |s| ==> r[i] == s[|s| - 1 - i]
  {
    seq(|s|, i requires 0 <= i < |s| => s[|s| - 1 - i])
  }

  /** The small buckets [ss, d] above ss, read backwards, are a first part for the scan downwards. */
  lemma RightFirst(b: seq<byte>, rank: seq<int>, p: seq<int>, f: seq<int>, ss: int)
    requires IsRank(b, rank) && Bucketed(b, p, f) && 0 <= ss < 256 && RowSorted(rank, p, f, ss)
    ensures 0 <= f[257 * ss + 1] <= f[256 * ss + 256] <= |p|
    ensures FirstPart(b, rank, false, ss, Rev(p[f[257 * ss + 1]..f[256 * ss + 256]]))
    ensures forall x :: 0 <= x < |b| && Starter(b, false, ss, x) ==> x in Rev(p[f[257 * ss + 1]..f[256 * ss + 256]])
  {
    StartsBelow(b, p, f, ss);
    var hi, first := f[256 * ss + 256], Rev(p[f[257 * ss + 1]..f[256 * ss + 256]]);
    forall i | 0 <= i < |first| ensures first[i] == p[hi - 1 - i] && 0 <= first[i] < |b|
        && Starter(b, false, ss, first[i]) {
      StarterPlaces(b, p, f, ss, false, hi - 1 - i);
    }
    forall i, j | 0 <= i <= j < |first| ensures Le(rank, false, first[i], first[j]) {
      StartersOrdered(b, rank, p, f, ss, false, hi - 1 - j, hi - 1 - i);
    }
    forall x | 0 <= x < |b| && Starter(b, false, ss, x) ensures x in first {
      var i := StarterFound(b, p, f, ss, false, x);
      assert first[hi - 1 - i] == x;
    }
    hide Starter, Le, RowSorted, IsRank;
    assert Distinct(first);
  }

  // ------------------------------------------------------------ the scan from the left

  /** Bucket [c, ss] from its first place up to the cursor: what the scan of `q` writes for `c`. */
  ghost predicate LeftRow(b: seq<byte>, f: seq<int>, ss: int, p: seq<int>, q: seq<int>, cs: int, c: int)
    requires |f| == 65537 && 0 <= ss < 256 && 0 <= c < 256 && Inside(q, |b|)
  {
    var (s, e) := (f[256 * c + ss], f[256 * c + ss + 1]);
    0 <= s <= cs <= e <= |p| && p[s..cs] == Out(b, q, c)
  }

  /** A place is as it was, or lies in an open bucket [c, ss] below its cursor. */
  ghost predicate LeftKept(b: seq<byte>, done: seq<bool>, ss: int, p0: seq<int>, p: seq<int>, cs: seq<int>, i: int)
    requires |done| == |cs| == 256 && 0 <= i < |p| == |p0| && 0 <= p0[i] < |b|
  {
    p[i] == p0[i] || (b[Next(|b|, p0[i])] as int == ss && !done[b[p0[i]]] && i < cs[b[p0[i]]])
  }

  /** What does not change during step 2. */
  ghost predicate Setting(b: seq<byte>, rank: seq<int>, f: seq<int>, done: seq<bool>, ss: int, p0: seq<int>) {
    && IsRank(b, rank) && (forall i :: 0 <= i < |b| ==> 0 <= rank[i]) && Bucketed(b, p0, f) && |done| == 256
        && 0 <= ss < 256 && !done[ss] && RowSorted(rank, p0, f, ss)
    && 0 <= f[256 * ss] <= f[257 * ss] <= f[257 * ss + 1] <= f[256 * ss + 256] <= |p0| == |b|
  }

  ghost predicate LeftScan(b: seq<byte>, rank: seq<int>, f: seq<int>, done: seq<bool>, ss: int, p0: seq<int>,
      p: seq<int>, cs: seq<int>, j: int) {
    && Setting(b, rank, f, done, ss, p0) && |cs| == 256 && |p| == |b| && Inside(p, |b|)
    && f[256 * ss] <= j <= cs[ss] <= f[257 * ss + 1]
    && Queue(b, rank, true, ss, p0[f[256 * ss]..f[257 * ss]], p[f[256 * ss]..j], p[f[256 * ss]..cs[ss]])
    && LeftRows(b, f, done, ss, p, p[f[256 * ss]..j], cs)
    && AllLeftKept(b, done, ss, p0, p, cs)
  }

  ghost predicate LeftRows(b: seq<byte>, f: seq<int>, done: seq<bool>, ss: int, p: seq<int>, q: seq<int>, cs: seq<int>)
    requires |f| == 65537 && 0 <= ss < 256 && |done| == |cs| == 256 && Inside(q, |b|)
  {
    forall c :: 0 <= c < 256 && !done[c] ==> LeftRow(b, f, ss, p, q, cs[c], c)
  }

  ghost predicate AllLeftKept(b: seq<byte>, done: seq<bool>, ss: int, p0: seq<int>, p: seq<int>, cs: seq<int>)
    requires |done| == |cs| == 256 && |p| == |p0| && Inside(p0, |b|)
  {
    forall i :: 0 <= i < |p| ==> LeftKept(b, done, ss, p0, p, cs, i)
  }

  lemma LeftStarts(b: seq<byte>, rank: seq<int>, f: seq<int>, done: seq<bool>, ss: int, p0: seq<int>, cs: seq<int>)
    requires Setting(b, rank, f, done, ss, p0) && |cs| == 256 && forall c :: 0 <= c < 256 ==> cs[c] == f[256 * c + ss]
    ensures LeftScan(b, rank, f, done, ss, p0, p0, cs, f[256 * ss])
  {
    LeftFirst(b, rank, p0, f, ss);
    QueueStarts(b, rank, true, ss, p0[f[256 * ss]..f[257 * ss]]);
    var lo := f[256 * ss];
    assert p0[lo..lo] == [];
    assert AllLeftKept(b, done, ss, p0, p0, cs);
    forall c | 0 <= c < 256 && !done[c] ensures LeftRow(b, f, ss, p0, p0[lo..lo], cs[c], c) {
      assert f[0] <= f[256 * c + ss] <= f[256 * c + ss + 1] <= f[65536];
    }
    hide Queue, FirstPart, IsRank, RowSorted, Bucketed;
  }

  /** A place of bucket [c, ss] lies in no other bucket [d, ss], nor in the big bucket ss unless c is ss. */
  lemma PlacesApart(f: seq<int>, n: nat, ss: int, c: int, w: int)
    requires Starts(f, n) && 0 <= ss < 256 && 0 <= c < 256 && f[256 * c + ss] <= w < f[256 * c + ss + 1]
    ensures forall d :: 0 <= d < 256 && d != c ==> !(f[256 * d + ss] <= w < f[256 * d + ss + 1])
    ensures c != ss ==> !(f[256 * ss] <= w < f[256 * ss + 256])
  {
    forall d | 0 <= d < 256 && d != c ensures !(f[256 * d + ss] <= w < f[256 * d + ss + 1]) {
      if d < c { assert f[256 * d + ss + 1] <= f[256 * c + ss]; }
          else { assert f[256 * c + ss + 1] <= f[256 * d + ss]; }
    }
    if c < ss { assert f[256 * c + ss + 1] <= f[256 * ss]; }
        else if c > ss { assert f[256 * ss + 256] <= f[256 * c + ss]; }
  }

  /** The row of byte `c` after position `k` has been written for byte `c1`, or for no open byte. */
  lemma LeftRowKept(b: seq<byte>, f: seq<int>, ss: int, p: seq<int>, q: seq<int>, x: int, cs: int, c: int, w: int,
      k: int)
    requires Starts(f, |b|) && 0 <= ss < 256 && 0 <= c < 256 && Inside(q, |b|) && 0 <= x < |b| && Inside(q + [x], |b|)
    requires LeftRow(b, f, ss, p, q, cs, c) && b[Prev(|b|, x)] as int != c && 0 <= w < |p|
    requires !(f[256 * c + ss] <= w < f[256 * c + ss + 1])
    ensures LeftRow(b, f, ss, p[w := k], q + [x], cs, c) && LeftRow(b, f, ss, p, q + [x], cs, c)
  {
    OutNext(b, q, x, c);
    assert p[w := k][f[256 * c + ss]..cs] == p[f[256 * c + ss]..cs];
  }

  lemma LeftRowGrows(b: seq<byte>, f: seq<int>, ss: int, p: seq<int>, q: seq<int>, x: int, cs: int, c: int)
    requires Starts(f, |b|) && 0 <= ss < 256 && 0 <= c < 256 && Inside(q, |b|) && 0 <= x < |b| && Inside(q + [x], |b|)
    requires LeftRow(b, f, ss, p, q, cs, c) && b[Prev(|b|, x)] as int == c && cs < f[256 * c + ss + 1]
    ensures LeftRow(b, f, ss, p[cs := Prev(|b|, x)], q + [x], cs + 1, c)
  {
    var k, s := Prev(|b|, x), f[256 * c + ss];
    OutNext(b, q, x, c);
    assert p[cs := k][s..cs + 1] == p[s..cs] + [k];
  }

  /** There is room for one more: what has been scanned is distinct. */
  lemma LeftRoom(b: seq<byte>, rank: seq<int>, f: seq<int>, done: seq<bool>, ss: int, p0: seq<int>, p: seq<int>,
      cs: seq<int>, j: int)
    requires LeftScan(b, rank, f, done, ss, p0, p, cs, j) && j < cs[ss]
    ensures 0 <= p[j] < |b|
    ensures var c1 := b[Prev(|b|, p[j])]; !done[c1] ==> 0 <= cs[c1] < f[256 * c1 as int + ss + 1] <= |p|
  {
    hide *;
    LeftScanHas(b, rank, f, done, ss, p0, p, cs, j);
    var lo, x := f[256 * ss], p[j];
    var q, full, first := p[lo..j], p[lo..cs[ss]], p0[lo..f[257 * ss]];
    var k := Prev(|b|, x);
    assert full[|q|] == x;
    QueueMoves(b, rank, true, ss, first, q, full);
    if !done[b[k]] {
      QueuePart(b, rank, true, ss, first, q + [x], if b[k] as int == ss then full + [k] else full);
      OneFits(b, rank, p0, f, ss, q + [x], b[k] as int);
      OutNext(b, q, x, b[k] as int);
      LeftSize(b, f, done, ss, p, q, cs, b[k] as int);
    }
  }

  lemma LeftSize(b: seq<byte>, f: seq<int>, done: seq<bool>, ss: int, p: seq<int>, q: seq<int>, cs: seq<int>, c: int)
    requires |f| == 65537 && 0 <= ss < 256 && |done| == |cs| == 256 && Inside(q, |b|) && 0 <= c < 256 && !done[c]
    requires LeftRows(b, f, done, ss, p, q, cs)
    ensures 0 <= f[256 * c + ss] <= cs[c] <= f[256 * c + ss + 1] <= |p|
    ensures cs[c] - f[256 * c + ss] == |Out(b, q, c)|
  {
    assert LeftRow(b, f, ss, p, q, cs[c], c);
  }

  /** What one scan has found for one bucket fits into it. */
  lemma OneFits(b: seq<byte>, rank: seq<int>, p0: seq<int>, f: seq<int>, ss: int, l: seq<int>, c: int)
    requires IsRank(b, rank) && Bucketed(b, p0, f) && 0 <= ss < 256 && 0 <= c < 256
    requires Inside(l, |b|) && Distinct(l) && InOrder(rank, true, l)
    requires forall i :: 0 <= i < |l| ==> InBucket(b, rank, true, ss, l[i])
    ensures |Out(b, l, c)| <= f[256 * c + ss + 1] - f[256 * c + ss]
  {
    hide IsRank, Bucketed, Out, Falls;
    BothFit(b, rank, p0, f, ss, l, [], c);
  }

  /** Writing past the place being scanned does not touch what has been scanned. */
  lemma LeftScanned(b: seq<byte>, rank: seq<int>, f: seq<int>, done: seq<bool>, ss: int, p0: seq<int>, p: seq<int>,
      cs: seq<int>, j: int)
    requires LeftScan(b, rank, f, done, ss, p0, p, cs, j) && j < cs[ss]
    ensures 0 <= f[256 * ss] <= j < |p| == |b| && 0 <= p[j] < |b|
    ensures var (lo, k) := (f[256 * ss], Prev(|b|, p[j]));
            var c1 := b[k];
            && p[lo..j + 1] == p[lo..j] + [p[j]]
            && (!done[c1] ==>
                var w := cs[c1];
                && 0 <= f[256 * c1 as int + ss] <= w < f[256 * c1 as int + ss + 1] <= |p|
                    && (c1 as int == ss || w < lo || f[256 * ss + 256] <= w)
                && p[w := k][lo..j + 1] == p[lo..j + 1]
                && p[w := k][lo..cs[c1 as int := w + 1][ss]] == if c1 as int == ss then p[lo..cs[ss]] + [k]
                    else p[lo..cs[ss]])
  {
    LeftRoom(b, rank, f, done, ss, p0, p, cs, j);
    var (lo, k) := (f[256 * ss], Prev(|b|, p[j]));
    var c1 := b[k] as int;
    if !done[c1] {
      var w := cs[c1];
      assert LeftRow(b, f, ss, p, p[lo..j], cs[c1], c1);
      PlacesApart(f, |b|, ss, c1, w);
      hide Queue, IsRank, RowSorted, LeftKept, LeftRow, IsPerm, Starts;
    }
  }

  lemma LeftStepQueue(b: seq<byte>, rank: seq<int>, f: seq<int>, done: seq<bool>, ss: int, p0: seq<int>, p: seq<int>,
      cs: seq<int>, j: int)
    requires LeftScan(b, rank, f, done, ss, p0, p, cs, j) && j < cs[ss]
    ensures 0 <= f[256 * ss] <= j < |p| == |b| && 0 <= p[j] < |b|
    ensures Inside(p[f[256 * ss]..j] + [p[j]], |b|)
    ensures var (lo, k, first) := (f[256 * ss], Prev(|b|, p[j]), p0[f[256 * ss]..f[257 * ss]]);
            var c1 := b[k] as int;
            Queue(b, rank, true, ss, first, p[lo..j] + [p[j]], if c1 == ss then p[lo..cs[ss]] + [k] else p[lo..cs[ss]])
  {
    var lo := f[256 * ss];
    var q, full := p[lo..j], p[lo..cs[ss]];
    assert full[|q|] == p[j];
    hide LeftRow, LeftKept, RowSorted, Bucketed, FirstPart, InOrder, Distinct, Out, IsRank;
    QueueMoves(b, rank, true, ss, p0[lo..f[257 * ss]], q, full);
  }

  lemma LeftRowsSkip(b: seq<byte>, f: seq<int>, done: seq<bool>, ss: int, p: seq<int>, q: seq<int>, x: int,
      cs: seq<int>)
    requires Starts(f, |b|) && 0 <= ss < 256 && |done| == |cs| == 256 && Inside(q, |b|) && 0 <= x < |b|
             && Inside(q + [x], |b|)
    requires LeftRows(b, f, done, ss, p, q, cs) && done[b[Prev(|b|, x)]]
    ensures LeftRows(b, f, done, ss, p, q + [x], cs)
  {
    forall c | 0 <= c < 256 && !done[c] ensures LeftRow(b, f, ss, p, q + [x], cs[c], c) {
      assert LeftRow(b, f, ss, p, q, cs[c], c);
      OutNext(b, q, x, c);
    }
  }

  lemma LeftRowsCopy(b: seq<byte>, f: seq<int>, done: seq<bool>, ss: int, p: seq<int>, q: seq<int>, x: int,
      cs: seq<int>, c1: int)
    requires Starts(f, |b|) && 0 <= ss < 256 && |done| == |cs| == 256 && Inside(q, |b|) && 0 <= x < |b|
             && Inside(q + [x], |b|)
    requires LeftRows(b, f, done, ss, p, q, cs) && c1 == b[Prev(|b|, x)] as int && !done[c1]
    requires 0 <= f[256 * c1 + ss] <= cs[c1] < f[256 * c1 + ss + 1] <= |p|
    ensures LeftRows(b, f, done, ss, p[cs[c1] := Prev(|b|, x)], q + [x], cs[c1 := cs[c1] + 1])
  {
    var (p', cs') := (p[cs[c1] := Prev(|b|, x)], cs[c1 := cs[c1] + 1]);
    PlacesApart(f, |b|, ss, c1, cs[c1]);
    forall c | 0 <= c < 256 && !done[c] ensures LeftRow(b, f, ss, p', q + [x], cs'[c], c) {
      assert LeftRow(b, f, ss, p, q, cs[c], c);
      hide LeftRow, Starts;
      if c == c1 {
        LeftRowGrows(b, f, ss, p, q, x, cs[c], c);
      } else {
        LeftRowKept(b, f, ss, p, q, x, cs[c], c, cs[c1], Prev(|b|, x));
      }
    }
  }

  lemma LeftStepKept(b: seq<byte>, f: seq<int>, done: seq<bool>, ss: int, p0: seq<int>, p: seq<int>, cs: seq<int>,
      c1: int, k: int)
    requires Bucketed(b, p0, f) && |done| == |cs| == 256 && |p| == |b| && 0 <= ss < 256 && 0 <= c1 < 256
    requires AllLeftKept(b, done, ss, p0, p, cs) && !done[c1]
             && 0 <= f[256 * c1 + ss] <= cs[c1] < f[256 * c1 + ss + 1] <= |p|
    ensures AllLeftKept(b, done, ss, p0, p[cs[c1] := k], cs[c1 := cs[c1] + 1])
  {
    assert PairOf(b, p0[cs[c1]]) == 256 * c1 + ss;
    var (p', cs') := (p[cs[c1] := k], cs[c1 := cs[c1] + 1]);
    forall i | 0 <= i < |p| ensures LeftKept(b, done, ss, p0, p', cs', i) {
      assert LeftKept(b, done, ss, p0, p, cs, i);
    }
  }

  lemma BucketedHas(b: seq<byte>, p: seq<int>, f: seq<int>)
    requires Bucketed(b, p, f)
    ensures Starts(f, |b|) && IsPerm(p, |b|) && |f| == 65537
  {
  }

  lemma LeftInside(b: seq<byte>, rank: seq<int>, f: seq<int>, done: seq<bool>, ss: int, p0: seq<int>, p: seq<int>,
      cs: seq<int>, j: int)
    requires LeftScan(b, rank, f, done, ss, p0, p, cs, j)
    ensures |done| == |cs| == 256 && 0 <= ss < 256 && 0 <= j <= |p| == |b| && Inside(p, |b|) && j <= cs[ss] <= |p|
  {
  }

  lemma LeftScanIs(b: seq<byte>, rank: seq<int>, f: seq<int>, done: seq<bool>, ss: int, p0: seq<int>, p: seq<int>,
      cs: seq<int>, j: int, q: seq<int>, full: seq<int>)
    requires Setting(b, rank, f, done, ss, p0) && |cs| == 256 && |p| == |b| && Inside(p, |b|)
    requires f[256 * ss] <= j <= cs[ss] <= f[257 * ss + 1] && q == p[f[256 * ss]..j] && full == p[f[256 * ss]..cs[ss]]
    requires Queue(b, rank, true, ss, p0[f[256 * ss]..f[257 * ss]], q, full)
    requires LeftRows(b, f, done, ss, p, q, cs) && AllLeftKept(b, done, ss, p0, p, cs)
    ensures LeftScan(b, rank, f, done, ss, p0, p, cs, j)
  {
  }

  lemma LeftScanHas(b: seq<byte>, rank: seq<int>, f: seq<int>, done: seq<bool>, ss: int, p0: seq<int>, p: seq<int>,
      cs: seq<int>, j: int)
    requires LeftScan(b, rank, f, done, ss, p0, p, cs, j)
    ensures Setting(b, rank, f, done, ss, p0) && |cs| == 256 && |p| == |b| && Inside(p, |b|) && Bucketed(b, p0, f)
            && |f| == 65537
    ensures 0 <= ss < 256 == |done| && 0 <= f[256 * ss] <= j <= cs[ss] <= f[257 * ss + 1] <= |p| == |p0|
            && f[257 * ss] <= |p| && Inside(p0, |b|)
    ensures f[256 * ss] <= f[257 * ss] && Inside(p[f[256 * ss]..j], |b|) && f[257 * ss + 1] <= f[256 * ss + 256] <= |p|
    ensures Queue(b, rank, true, ss, p0[f[256 * ss]..f[257 * ss]], p[f[256 * ss]..j], p[f[256 * ss]..cs[ss]])
    ensures LeftRows(b, f, done, ss, p, p[f[256 * ss]..j], cs) && AllLeftKept(b, done, ss, p0, p, cs)
    ensures IsRank(b, rank) && |rank| == |b| && (j < cs[ss] ==> 0 <= p[j] < |b|)
  {
  }

  lemma InsideSet(p: seq<int>, n: nat, w: int, k: int)
    requires Inside(p, n) && 0 <= w < |p| && 0 <= k < n
    ensures Inside(p[w := k], n)
  {
  }

  /** One step of the scan from the left, the position before the one read belonging to a finished big bucket. */
  lemma LeftSkip(b: seq<byte>, rank: seq<int>, f: seq<int>, done: seq<bool>, ss: int, p0: seq<int>, p: seq<int>,
      cs: seq<int>, j: int)
    requires LeftScan(b, rank, f, done, ss, p0, p, cs, j) && 0 <= ss < 256 == |cs| == |done|
             && 0 <= j < cs[ss] <= |p| == |b| && 0 <= p[j] < |b|
    requires done[b[Prev(|b|, p[j])]]
    ensures LeftScan(b, rank, f, done, ss, p0, p, cs, j + 1)
  {
    hide *;
    LeftScanHas(b, rank, f, done, ss, p0, p, cs, j);
    BucketedHas(b, p0, f);
    LeftScanned(b, rank, f, done, ss, p0, p, cs, j);
    LeftStepQueue(b, rank, f, done, ss, p0, p, cs, j);
    var lo := f[256 * ss];
    LeftRowsSkip(b, f, done, ss, p, p[lo..j], p[j], cs);
    LeftScanIs(b, rank, f, done, ss, p0, p, cs, j + 1, p[lo..j] + [p[j]], p[lo..cs[ss]]);
  }

  /** The same where the byte in front is open: its position goes under the cursor of its bucket, which moves on. */
  lemma LeftCopy(b: seq<byte>, rank: seq<int>, f: seq<int>, done: seq<bool>, ss: int, p0: seq<int>, p: seq<int>,
      cs: seq<int>, j: int, c1: int)
    requires LeftScan(b, rank, f, done, ss, p0, p, cs, j) && 0 <= ss < 256 == |cs| == |done|
             && 0 <= j < cs[ss] <= |p| == |b| && 0 <= p[j] < |b|
    requires c1 == b[Prev(|b|, p[j])] as int && !done[c1]
    ensures 0 <= cs[c1] < |p| && LeftScan(b, rank, f, done, ss, p0, p[cs[c1] := Prev(|b|, p[j])], cs[c1 := cs[c1] + 1],
            j + 1)
  {
    hide *;
    LeftScanHas(b, rank, f, done, ss, p0, p, cs, j);
    var (lo, k, w) := (f[256 * ss], Prev(|b|, p[j]), cs[c1]);
    var (q, full) := (p[lo..j] + [p[j]], if c1 == ss then p[lo..cs[ss]] + [k] else p[lo..cs[ss]]);
    assert 0 <= f[256 * c1 + ss] <= w < f[256 * c1 + ss + 1] <= |p| by {
      LeftScanned(b, rank, f, done, ss, p0, p, cs, j);
    }
    var (p', cs') := (p[w := k], cs[c1 := w + 1]);
    assert Queue(b, rank, true, ss, p0[lo..f[257 * ss]], q, full) && Inside(q, |b|) by {
      LeftStepQueue(b, rank, f, done, ss, p0, p, cs, j);
    }
    assert LeftRows(b, f, done, ss, p', q, cs') && AllLeftKept(b, done, ss, p0, p', cs') && Inside(p', |b|) by {
      BucketedHas(b, p0, f);
      LeftRowsCopy(b, f, done, ss, p, p[lo..j], p[j], cs, c1);
      LeftStepKept(b, f, done, ss, p0, p, cs, c1, k);
      InsideSet(p, |b|, w, k);
    }
    assert q == p'[lo..j + 1] && cs'[ss] <= f[257 * ss + 1] && full == p'[lo..cs'[ss]] by {
      LeftScanned(b, rank, f, done, ss, p0, p, cs, j);
    }
    LeftScanIs(b, rank, f, done, ss, p0, p', cs', j + 1, q, full);
  }

  // ------------------------------------------------------------ the scan from the right

  /** The positions of big bucket `ss` that fall, each once, in the order their scan reads them. */
  ghost predicate AllFalling(b: seq<byte>, rank: seq<int>, up: bool, ss: int, q: seq<int>)
    requires |rank| == |b|
  {
    && Inside(q, |b|) && Distinct(q) && InOrder(rank, up, q)
    && (forall i :: 0 <= i < |q| ==> InBucket(b, rank, up, ss, q[i]))
    && forall x :: 0 <= x < |b| && InBucket(b, rank, up, ss, x) ==> x in q
  }

  lemma {:induction false} TopRank(rank: seq<int>) returns (top: nat)
    ensures forall i :: 0 <= i < |rank| ==> rank[i] <= top
  {
    if rank == [] { top := 0; } else {
      top := TopRank(rank[1..]);
      top := if rank[0] > top then rank[0] else top;
      assert forall i :: 0 < i < |rank| ==> rank[i] == rank[1..][i - 1];
    }
  }

  lemma CaughtUp(b: seq<byte>, rank: seq<int>, up: bool, ss: int, first: seq<int>, full: seq<int>)
    requires IsRank(b, rank) && Queue(b, rank, up, ss, first, full, full) && forall i :: 0 <= i < |b| ==> 0 <= rank[i]
    requires forall x :: 0 <= x < |b| && Starter(b, up, ss, x) ==> x in first
    ensures AllFalling(b, rank, up, ss, full)
  {
    var top := TopRank(rank);
    forall x | 0 <= x < |b| && InBucket(b, rank, up, ss, x) ensures x in full {
      AllFound(b, rank, up, ss, first, full, top, x);
    }
  }

  /** Places `from` up to `to`, read downwards. */
  ghost function Down(p: seq<int>, from: int, to: int): (r: seq<int>)
    requires 0 <= from <= to <= |p|
    ensures |r| == to - from && forall i :: 0 <= i < to - from ==> r[i] == p[to - 1 - i]
  {
    Rev(p[from..to])
  }

  lemma DownStep(p: seq<int>, j: int, to: int)
    requires 0 <= j < to <= |p|
    ensures Down(p, j, to) == Down(p, j + 1, to) + [p[j]]
  {
  }

  lemma DownSame(p: seq<int>, from: int, to: int, w: int, k: int)
    requires 0 <= from <= to <= |p| && 0 <= w < |p| && !(from <= w < to)
    ensures Down(p[w := k], from, to) == Down(p, from, to)
  {
  }

  lemma DownInside(p: seq<int>, from: int, to: int, n: nat)
    requires 0 <= from <= to <= |p| && Inside(p, n)
    ensures Inside(Down(p, from, to), n)
  {
  }

  /**
   * Bucket [c, ss] from its last place down to the cursor: what the scan of `q` writes for `c`; the cursors have not
   * crossed.
   */
  ghost predicate RightRow(b: seq<byte>, f: seq<int>, ss: int, p: seq<int>, q: seq<int>, cs: int, ce: int, c: int)
    requires |f| == 65537 && 0 <= ss < 256 && 0 <= c < 256 && Inside(q, |b|)
  {
    var (s, e) := (f[256 * c + ss], f[256 * c + ss + 1]);
    0 <= s <= cs <= ce + 1 <= e <= |p| && Down(p, ce + 1, e) == Out(b, q, c)
  }

  ghost predicate RightRows(b: seq<byte>, f: seq<int>, done: seq<bool>, ss: int, p: seq<int>, q: seq<int>, cs: seq<int>,
      ce: seq<int>)
    requires |f| == 65537 && 0 <= ss < 256 && |done| == |cs| == |ce| == 256 && Inside(q, |b|)
  {
    forall c :: 0 <= c < 256 && !done[c] ==> RightRow(b, f, ss, p, q, cs[c], ce[c], c)
  }

  /** A place is as it was, or lies in an open bucket [c, ss] below its first cursor or above its second. */
  ghost predicate Kept(b: seq<byte>, done: seq<bool>, ss: int, p0: seq<int>, p: seq<int>, cs: seq<int>, ce: seq<int>,
      i: int)
    requires |done| == |cs| == |ce| == 256 && 0 <= i < |p| == |p0| && 0 <= p0[i] < |b|
  {
    p[i] == p0[i] || (b[Next(|b|, p0[i])] as int == ss && !done[b[p0[i]]] && (i < cs[b[p0[i]]] || ce[b[p0[i]]] < i))
  }

  ghost predicate AllKept(b: seq<byte>, done: seq<bool>, ss: int, p0: seq<int>, p: seq<int>, cs: seq<int>, ce: seq<int>)
    requires |done| == |cs| == |ce| == 256 && |p| == |p0| && Inside(p0, |b|)
  {
    forall i :: 0 <= i < |p| ==> Kept(b, done, ss, p0, p, cs, ce, i)
  }

  ghost predicate RightScan(b: seq<byte>, rank: seq<int>, f: seq<int>, done: seq<bool>, ss: int, p0: seq<int>,
      l: seq<int>, cs: seq<int>, p: seq<int>, ce: seq<int>, j: int) {
    && Setting(b, rank, f, done, ss, p0) && |cs| == |ce| == 256 && |p| == |b| && Inside(p, |b|)
        && AllFalling(b, rank, true, ss, l)
    && 0 <= ce[ss] + 1 <= j + 1 <= f[256 * ss + 256] && Inside(Down(p, j + 1, f[256 * ss + 256]), |b|)
    && Queue(b, rank, false, ss, Down(p0, f[257 * ss + 1], f[256 * ss + 256]), Down(p, j + 1, f[256 * ss + 256]),
        Down(p, ce[ss] + 1, f[256 * ss + 256]))
    && LeftRows(b, f, done, ss, p, l, cs)
    && RightRows(b, f, done, ss, p, Down(p, j + 1, f[256 * ss + 256]), cs, ce)
    && AllKept(b, done, ss, p0, p, cs, ce)
  }

  /** The places of big bucket `ss` above [ss, ss] are untouched by the scan from the left. */
  lemma AboveUntouched(b: seq<byte>, rank: seq<int>, f: seq<int>, done: seq<bool>, ss: int, p0: seq<int>, p: seq<int>,
      cs: seq<int>)
    requires Setting(b, rank, f, done, ss, p0) && |cs| == 256 && |p| == |b| && Inside(p0, |b|)
             && AllLeftKept(b, done, ss, p0, p, cs)
    ensures Down(p, f[257 * ss + 1], f[256 * ss + 256]) == Down(p0, f[257 * ss + 1], f[256 * ss + 256])
  {
    forall i | f[257 * ss + 1] <= i < f[256 * ss + 256] ensures p[i] == p0[i] {
      StarterPlaces(b, p0, f, ss, false, i);
      assert LeftKept(b, done, ss, p0, p, cs, i);
    }
  }

  lemma RightStarts(b: seq<byte>, rank: seq<int>, f: seq<int>, done: seq<bool>, ss: int, p0: seq<int>, p: seq<int>,
      cs: seq<int>, ce: seq<int>)
    requires Setting(b, rank, f, done, ss, p0) && |cs| == |ce| == 256
             && LeftScan(b, rank, f, done, ss, p0, p, cs, cs[ss])
    requires forall c :: 0 <= c < 256 ==> ce[c] == f[256 * c + ss + 1] - 1
    ensures 0 <= f[256 * ss] <= cs[ss] <= |p|
    ensures RightScan(b, rank, f, done, ss, p0, p[f[256 * ss]..cs[ss]], cs, p, ce, f[256 * ss + 256] - 1)
  {
    assert 0 <= ss < 256;
    hide *;
    LeftScanHas(b, rank, f, done, ss, p0, p, cs, cs[ss]);
    SettingHas(b, rank, f, done, ss, p0);
    var (l, hi) := (p[f[256 * ss]..cs[ss]], f[256 * ss + 256]);
    RowsStart(b, f, done, ss, p0, p, l, cs, ce);
    assert AllFalling(b, rank, true, ss, l) by {
      LeftFirst(b, rank, p0, f, ss);
      CaughtUp(b, rank, true, ss, p0[f[256 * ss]..f[257 * ss]], l);
    }
    assert Queue(b, rank, false, ss, Down(p0, f[257 * ss + 1], hi), [], Down(p, f[257 * ss + 1], hi)) by {
      RightFirst(b, rank, p0, f, ss);
      DownIsRev(p0, f[257 * ss + 1], hi);
      AboveUntouched(b, rank, f, done, ss, p0, p, cs);
      QueueStarts(b, rank, false, ss, Down(p0, f[257 * ss + 1], hi));
    }
    RightScanIs(b, rank, f, done, ss, p0, l, cs, p, ce, hi - 1, [], Down(p, f[257 * ss + 1], hi));
  }

  /** No byte has been scanned from the right yet. */
  lemma RowsStart(b: seq<byte>, f: seq<int>, done: seq<bool>, ss: int, p0: seq<int>, p: seq<int>, l: seq<int>,
      cs: seq<int>, ce: seq<int>)
    requires |f| == 65537 && 0 <= ss < 256 && |done| == |cs| == |ce| == 256 && |p| == |p0| && Inside(l, |b|)
    requires Inside(p0, |b|) && LeftRows(b, f, done, ss, p, l, cs) && AllLeftKept(b, done, ss, p0, p, cs)
    requires forall c :: 0 <= c < 256 ==> ce[c] == f[256 * c + ss + 1] - 1
    ensures RightRows(b, f, done, ss, p, [], cs, ce) && AllKept(b, done, ss, p0, p, cs, ce)
  {
    forall c | 0 <= c < 256 && !done[c] ensures RightRow(b, f, ss, p, [], cs[c], ce[c], c) {
      assert LeftRow(b, f, ss, p, l, cs[c], c);
    }
    forall i | 0 <= i < |p| ensures Kept(b, done, ss, p0, p, cs, ce, i) { assert LeftKept(b, done, ss, p0, p, cs, i); }
  }

  lemma RightScanHas(b: seq<byte>, rank: seq<int>, f: seq<int>, done: seq<bool>, ss: int, p0: seq<int>, l: seq<int>,
      cs: seq<int>, p: seq<int>, ce: seq<int>, j: int)
    requires RightScan(b, rank, f, done, ss, p0, l, cs, p, ce, j)
    ensures Setting(b, rank, f, done, ss, p0) && |cs| == |ce| == 256 && |p| == |b| && Inside(p, |b|)
            && AllFalling(b, rank, true, ss, l)
    ensures Bucketed(b, p0, f) && |f| == 65537 && 0 <= ss < 256 == |done| && |p0| == |p| && Inside(p0, |b|)
            && IsRank(b, rank) && Inside(l, |b|)
    ensures 0 <= f[257 * ss] <= f[257 * ss + 1] <= f[256 * ss + 256] <= |p|
            && 0 <= ce[ss] + 1 <= j + 1 <= f[256 * ss + 256]
    ensures Inside(Down(p, j + 1, f[256 * ss + 256]), |b|) && !done[ss]
    ensures Queue(b, rank, false, ss, Down(p0, f[257 * ss + 1], f[256 * ss + 256]), Down(p, j + 1, f[256 * ss + 256]),
            Down(p, ce[ss] + 1, f[256 * ss + 256]))
    ensures LeftRows(b, f, done, ss, p, l, cs)
            && RightRows(b, f, done, ss, p, Down(p, j + 1, f[256 * ss + 256]), cs, ce)
    ensures AllKept(b, done, ss, p0, p, cs, ce)
  {
  }

  lemma RightScanIs(b: seq<byte>, rank: seq<int>, f: seq<int>, done: seq<bool>, ss: int, p0: seq<int>, l: seq<int>,
      cs: seq<int>, p: seq<int>, ce: seq<int>, j: int, q: seq<int>, full: seq<int>)
    requires Setting(b, rank, f, done, ss, p0) && |cs| == |ce| == 256 && |p| == |b| && Inside(p, |b|)
             && AllFalling(b, rank, true, ss, l)
    requires 0 <= ce[ss] + 1 <= j + 1 <= f[256 * ss + 256] && q == Down(p, j + 1, f[256 * ss + 256])
             && full == Down(p, ce[ss] + 1, f[256 * ss + 256])
    requires Queue(b, rank, false, ss, Down(p0, f[257 * ss + 1], f[256 * ss + 256]), q, full)
    requires LeftRows(b, f, done, ss, p, l, cs) && RightRows(b, f, done, ss, p, q, cs, ce)
             && AllKept(b, done, ss, p0, p, cs, ce)
    ensures RightScan(b, rank, f, done, ss, p0, l, cs, p, ce, j)
  {
  }

  lemma RightQueue(b: seq<byte>, rank: seq<int>, f: seq<int>, done: seq<bool>, ss: int, p0: seq<int>, l: seq<int>,
      cs: seq<int>, p: seq<int>, ce: seq<int>, j: int)
    requires RightScan(b, rank, f, done, ss, p0, l, cs, p, ce, j) && ce[ss] < j
    ensures 0 <= j < f[256 * ss + 256] <= |p| == |b| && 0 <= p[j] < |b|
    ensures var (hi, k) := (f[256 * ss + 256], Prev(|b|, p[j]));
            && Down(p, j, hi) == Down(p, j + 1, hi) + [p[j]] <= Down(p, ce[ss] + 1, hi) && Inside(Down(p, j, hi), |b|)
            && Queue(b, rank, false, ss, Down(p0, f[257 * ss + 1], hi), Down(p, j, hi),
                     if b[k] as int == ss then Down(p, ce[ss] + 1, hi) + [k] else Down(p, ce[ss] + 1, hi))
  {
    hide *;
    RightScanHas(b, rank, f, done, ss, p0, l, cs, p, ce, j);
    var hi := f[256 * ss + 256];
    var q, full := Down(p, j + 1, hi), Down(p, ce[ss] + 1, hi);
    assert full[|q|] == p[j];
    DownStep(p, j, hi);
    DownInside(p, j, hi, |b|);
    QueueMoves(b, rank, false, ss, Down(p0, f[257 * ss + 1], hi), q, full);
  }

  /** The scanned part of a queue is distinct, in order and falling. */
  lemma QueuePart(b: seq<byte>, rank: seq<int>, up: bool, ss: int, first: seq<int>, q: seq<int>, full: seq<int>)
    requires |rank| == |b| && Queue(b, rank, up, ss, first, q, full)
    ensures Inside(q, |b|) && Distinct(q) && InOrder(rank, up, q)
    ensures forall i :: 0 <= i < |q| ==> InBucket(b, rank, up, ss, q[i])
  {
    assert q == full[..|q|];
    PrefixOrdered(rank, up, full, |q|);
    forall i | 0 <= i < |q| ensures InBucket(b, rank, up, ss, q[i]) { assert q[i] == full[i]; }
  }

  /** What both scans have found for one bucket fits into it, and fills it if they found all of it. */
  lemma BothFit(b: seq<byte>, rank: seq<int>, p0: seq<int>, f: seq<int>, ss: int, l: seq<int>, r: seq<int>, c: int)
    requires IsRank(b, rank) && Bucketed(b, p0, f) && 0 <= ss < 256 && 0 <= c < 256
    requires Inside(l, |b|) && Distinct(l) && InOrder(rank, true, l)
    requires forall i :: 0 <= i < |l| ==> InBucket(b, rank, true, ss, l[i])
    requires Inside(r, |b|) && Distinct(r) && InOrder(rank, false, r)
    requires forall i :: 0 <= i < |r| ==> InBucket(b, rank, false, ss, r[i])
    ensures |Out(b, l, c)| + |Out(b, r, c)| <= f[256 * c + ss + 1] - f[256 * c + ss]
  {
    BothDistinct(b, rank, ss, l, r, c);
    OutBelongs(b, l, ss, c);
    OutBelongs(b, r, ss, c);
    var o := Out(b, l, c) + Out(b, r, c);
    hide InOrder, IsRank, Falls, Bucketed;
    Capacity(b, p0, f, 256 * c + ss, o);
  }

  lemma BothFill(b: seq<byte>, rank: seq<int>, p0: seq<int>, f: seq<int>, ss: int, l: seq<int>, r: seq<int>, c: int)
    requires IsRank(b, rank) && Bucketed(b, p0, f) && 0 <= ss < 256 && 0 <= c < 256
    requires AllFalling(b, rank, true, ss, l) && AllFalling(b, rank, false, ss, r)
    requires forall x :: 0 <= x < |b| && b[x] as int == ss ==>
             InBucket(b, rank, true, ss, x) || InBucket(b, rank, false, ss, x)
    ensures |Out(b, l, c)| + |Out(b, r, c)| == f[256 * c + ss + 1] - f[256 * c + ss]
  {
    BothDistinct(b, rank, ss, l, r, c);
    OutBelongs(b, l, ss, c);
    OutBelongs(b, r, ss, c);
    var o := Out(b, l, c) + Out(b, r, c);
    forall x | 0 <= x < |b| && PairOf(b, x) == 256 * c + ss ensures x in o {
      OutHas(b, l, c, x);
      OutHas(b, r, c, x);
      assert InBucket(b, rank, true, ss, Next(|b|, x)) || InBucket(b, rank, false, ss, Next(|b|, x));
    }
    hide InOrder, IsRank, Falls, Bucketed, AllFalling, InBucket;
    Capacity(b, p0, f, 256 * c + ss, o);
  }

  lemma RowSizes(b: seq<byte>, f: seq<int>, done: seq<bool>, ss: int, p: seq<int>, l: seq<int>, q: seq<int>,
      cs: seq<int>, ce: seq<int>, c: int)
    requires |f| == 65537 && 0 <= ss < 256 && |done| == |cs| == |ce| == 256 && Inside(q, |b|) && Inside(l, |b|)
    requires LeftRows(b, f, done, ss, p, l, cs) && RightRows(b, f, done, ss, p, q, cs, ce) && 0 <= c < 256 && !done[c]
    ensures LeftRow(b, f, ss, p, l, cs[c], c) && RightRow(b, f, ss, p, q, cs[c], ce[c], c)
    ensures 0 <= f[256 * c + ss] <= cs[c] <= ce[c] + 1 <= f[256 * c + ss + 1] <= |p|
    ensures p[f[256 * c + ss]..cs[c]] == Out(b, l, c) && Down(p, ce[c] + 1, f[256 * c + ss + 1]) == Out(b, q, c)
  {
  }

  lemma FallingHas(b: seq<byte>, rank: seq<int>, up: bool, ss: int, q: seq<int>)
    requires |rank| == |b| && AllFalling(b, rank, up, ss, q)
    ensures Inside(q, |b|) && Distinct(q) && InOrder(rank, up, q)
    ensures forall i :: 0 <= i < |q| ==> InBucket(b, rank, up, ss, q[i])
  {
  }

  lemma RightRoom(b: seq<byte>, rank: seq<int>, f: seq<int>, done: seq<bool>, ss: int, p0: seq<int>, l: seq<int>,
      cs: seq<int>, p: seq<int>, ce: seq<int>, j: int)
    requires RightScan(b, rank, f, done, ss, p0, l, cs, p, ce, j) && ce[ss] < j
    ensures 0 <= p[j] < |b|
    ensures var c1 := b[Prev(|b|, p[j])] as int;
            !done[c1] ==> 0 <= f[256 * c1 + ss] <= cs[c1] <= ce[c1] < f[256 * c1 + ss + 1] <= |p|
  {
    hide *;
    RightScanHas(b, rank, f, done, ss, p0, l, cs, p, ce, j);
    RightQueue(b, rank, f, done, ss, p0, l, cs, p, ce, j);
    var (hi, x) := (f[256 * ss + 256], p[j]);
    var (q, k) := (Down(p, j + 1, hi), Prev(|b|, x));
    var c1 := b[k] as int;
    QueuePart(b, rank, false, ss, Down(p0, f[257 * ss + 1], hi), Down(p, j, hi),
              if c1 == ss then Down(p, ce[ss] + 1, hi) + [k] else Down(p, ce[ss] + 1, hi));
    if !done[c1] {
      FallingHas(b, rank, true, ss, l);
      BothFit(b, rank, p0, f, ss, l, Down(p, j, hi), c1);
      OutNext(b, q, x, c1);
      RowSizes(b, f, done, ss, p, l, q, cs, ce, c1);
    }
  }

  lemma RightScanned(f: seq<int>, n: nat, ss: int, p: seq<int>, ce: seq<int>, j: int, c1: int, k: int)
    requires Starts(f, n) && 0 <= ss < 256 == |ce| && 0 <= c1 < 256 && |p| == n
             && 0 <= ce[ss] + 1 <= j < f[256 * ss + 256]
    requires f[257 * ss] <= ce[ss] + 1 && 0 <= f[256 * c1 + ss] <= ce[c1] < f[256 * c1 + ss + 1] <= n
    ensures f[256 * ss + 256] <= |p| && 0 <= ce[c1] < |p|
    ensures var (hi, p', ce') := (f[256 * ss + 256], p[ce[c1] := k], ce[c1 := ce[c1] - 1]);
            && Down(p', j, hi) == Down(p, j, hi)
            && Down(p', ce'[ss] + 1, hi) == if c1 == ss then Down(p, ce[ss] + 1, hi) + [k] else Down(p, ce[ss] + 1, hi)
  {
    var (hi, w) := (f[256 * ss + 256], ce[c1]);
    assert f[0] <= f[256 * ss] <= f[257 * ss] && hi <= f[65536];
    PlacesApart(f, n, ss, c1, w);
    DownSame(p, j, hi, w, k);
    if c1 == ss {
      DownStep(p[w := k], w, hi);
      DownSame(p, w + 1, hi, w, k);
    } else {
      DownSame(p, ce[ss] + 1, hi, w, k);
    }
  }

  lemma LeftRowsKept(b: seq<byte>, f: seq<int>, done: seq<bool>, ss: int, p: seq<int>, l: seq<int>, cs: seq<int>,
      c1: int, w: int, k: int)
    requires Starts(f, |b|) && 0 <= ss < 256 && |done| == |cs| == 256 && Inside(l, |b|) && 0 <= c1 < 256 && !done[c1]
    requires LeftRows(b, f, done, ss, p, l, cs) && 0 <= f[256 * c1 + ss] <= cs[c1] <= w < f[256 * c1 + ss + 1] <= |p|
    ensures LeftRows(b, f, done, ss, p[w := k], l, cs)
  {
    PlacesApart(f, |b|, ss, c1, w);
    forall c | 0 <= c < 256 && !done[c] ensures LeftRow(b, f, ss, p[w := k], l, cs[c], c) {
      assert LeftRow(b, f, ss, p, l, cs[c], c);
      assert p[w := k][f[256 * c + ss]..cs[c]] == p[f[256 * c + ss]..cs[c]];
    }
  }

  lemma RightRowKept(b: seq<byte>, f: seq<int>, ss: int, p: seq<int>, q: seq<int>, x: int, cs: int, ce: int, c: int,
      w: int, k: int)
    requires Starts(f, |b|) && 0 <= ss < 256 && 0 <= c < 256 && Inside(q, |b|) && 0 <= x < |b| && Inside(q + [x], |b|)
    requires RightRow(b, f, ss, p, q, cs, ce, c) && b[Prev(|b|, x)] as int != c && 0 <= w < |p|
    requires !(f[256 * c + ss] <= w < f[256 * c + ss + 1])
    ensures RightRow(b, f, ss, p[w := k], q + [x], cs, ce, c) && RightRow(b, f, ss, p, q + [x], cs, ce, c)
  {
    OutNext(b, q, x, c);
    DownSame(p, ce + 1, f[256 * c + ss + 1], w, k);
  }

  lemma RightRowGrows(b: seq<byte>, f: seq<int>, ss: int, p: seq<int>, q: seq<int>, x: int, cs: int, ce: int, c: int)
    requires Starts(f, |b|) && 0 <= ss < 256 && 0 <= c < 256 && Inside(q, |b|) && 0 <= x < |b| && Inside(q + [x], |b|)
    requires RightRow(b, f, ss, p, q, cs, ce, c) && b[Prev(|b|, x)] as int == c && cs <= ce
    ensures RightRow(b, f, ss, p[ce := Prev(|b|, x)], q + [x], cs, ce - 1, c)
  {
    var k, e := Prev(|b|, x), f[256 * c + ss + 1];
    OutNext(b, q, x, c);
    DownSame(p, ce + 1, e, ce, k);
    DownStep(p[ce := k], ce, e);
  }

  lemma RightRowsSkip(b: seq<byte>, f: seq<int>, done: seq<bool>, ss: int, p: seq<int>, q: seq<int>, x: int,
      cs: seq<int>, ce: seq<int>)
    requires Starts(f, |b|) && 0 <= ss < 256 && |done| == |cs| == |ce| == 256 && Inside(q, |b|) && 0 <= x < |b|
             && Inside(q + [x], |b|)
    requires RightRows(b, f, done, ss, p, q, cs, ce) && done[b[Prev(|b|, x)]]
    ensures RightRows(b, f, done, ss, p, q + [x], cs, ce)
  {
    forall c | 0 <= c < 256 && !done[c] ensures RightRow(b, f, ss, p, q + [x], cs[c], ce[c], c) {
      assert RightRow(b, f, ss, p, q, cs[c], ce[c], c);
      OutNext(b, q, x, c);
    }
  }

  lemma RightRowsCopy(b: seq<byte>, f: seq<int>, done: seq<bool>, ss: int, p: seq<int>, q: seq<int>, x: int,
      cs: seq<int>, ce: seq<int>, c1: int)
    requires Starts(f, |b|) && 0 <= ss < 256 && |done| == |cs| == |ce| == 256 && Inside(q, |b|) && 0 <= x < |b|
             && Inside(q + [x], |b|)
    requires RightRows(b, f, done, ss, p, q, cs, ce) && c1 == b[Prev(|b|, x)] as int && !done[c1]
             && 0 <= cs[c1] <= ce[c1] < |p|
    requires f[256 * c1 + ss] <= ce[c1] < f[256 * c1 + ss + 1]
    ensures RightRows(b, f, done, ss, p[ce[c1] := Prev(|b|, x)], q + [x], cs, ce[c1 := ce[c1] - 1])
  {
    var (p', ce') := (p[ce[c1] := Prev(|b|, x)], ce[c1 := ce[c1] - 1]);
    PlacesApart(f, |b|, ss, c1, ce[c1]);
    forall c | 0 <= c < 256 && !done[c] ensures RightRow(b, f, ss, p', q + [x], cs[c], ce'[c], c) {
      assert RightRow(b, f, ss, p, q, cs[c], ce[c], c);
      hide RightRow, Starts;
      if c == c1 {
        RightRowGrows(b, f, ss, p, q, x, cs[c], ce[c], c);
      } else {
        RightRowKept(b, f, ss, p, q, x, cs[c], ce[c], c, ce[c1], Prev(|b|, x));
      }
    }
  }

  lemma RightStepKept(b: seq<byte>, f: seq<int>, done: seq<bool>, ss: int, p0: seq<int>, p: seq<int>, cs: seq<int>,
      ce: seq<int>, c1: int, k: int)
    requires Bucketed(b, p0, f) && |done| == |cs| == |ce| == 256 && |p| == |b| && 0 <= ss < 256 && 0 <= c1 < 256
    requires AllKept(b, done, ss, p0, p, cs, ce) && !done[c1]
             && 0 <= f[256 * c1 + ss] <= ce[c1] < f[256 * c1 + ss + 1] <= |p|
    ensures AllKept(b, done, ss, p0, p[ce[c1] := k], cs, ce[c1 := ce[c1] - 1])
  {
    assert PairOf(b, p0[ce[c1]]) == 256 * c1 + ss;
    var (p', ce') := (p[ce[c1] := k], ce[c1 := ce[c1] - 1]);
    forall i | 0 <= i < |p| ensures Kept(b, done, ss, p0, p', cs, ce', i) {
      assert Kept(b, done, ss, p0, p, cs, ce, i);
    }
  }

  lemma RightInside(b: seq<byte>, rank: seq<int>, f: seq<int>, done: seq<bool>, ss: int, p0: seq<int>, l: seq<int>,
      cs: seq<int>, p: seq<int>, ce: seq<int>, j: int)
    requires RightScan(b, rank, f, done, ss, p0, l, cs, p, ce, j)
    ensures |done| == |cs| == |ce| == 256 && 0 <= ss < 256 && -1 <= ce[ss] <= j < |p| == |b| && Inside(p, |b|)
  {
  }

  lemma RightSkip(b: seq<byte>, rank: seq<int>, f: seq<int>, done: seq<bool>, ss: int, p0: seq<int>, l: seq<int>,
      cs: seq<int>, p: seq<int>, ce: seq<int>, j: int)
    requires RightScan(b, rank, f, done, ss, p0, l, cs, p, ce, j)
    requires 0 <= ss < 256 == |ce| == |done| && -1 <= ce[ss] < j < |p| == |b| && 0 <= p[j] < |b|
             && done[b[Prev(|b|, p[j])]]
    ensures RightScan(b, rank, f, done, ss, p0, l, cs, p, ce, j - 1)
  {
    hide *;
    RightScanHas(b, rank, f, done, ss, p0, l, cs, p, ce, j);
    BucketedHas(b, p0, f);
    RightQueue(b, rank, f, done, ss, p0, l, cs, p, ce, j);
    var (hi, k) := (f[256 * ss + 256], Prev(|b|, p[j]));
    RightRowsSkip(b, f, done, ss, p, Down(p, j + 1, hi), p[j], cs, ce);
    RightScanIs(b, rank, f, done, ss, p0, l, cs, p, ce, j - 1, Down(p, j, hi), Down(p, ce[ss] + 1, hi));
  }

  lemma RightCopy(b: seq<byte>, rank: seq<int>, f: seq<int>, done: seq<bool>, ss: int, p0: seq<int>, l: seq<int>,
      cs: seq<int>, p: seq<int>, ce: seq<int>, j: int, c1: int)
    requires RightScan(b, rank, f, done, ss, p0, l, cs, p, ce, j)
    requires 0 <= ss < 256 == |ce| == |done| && -1 <= ce[ss] < j < |p| == |b| && 0 <= p[j] < |b|
             && c1 == b[Prev(|b|, p[j])] as int && !done[c1]
    ensures 0 <= ce[c1] < |p|
    ensures RightScan(b, rank, f, done, ss, p0, l, cs, p[ce[c1] := Prev(|b|, p[j])], ce[c1 := ce[c1] - 1], j - 1)
  {
    hide *;
    RightScanHas(b, rank, f, done, ss, p0, l, cs, p, ce, j);
    BucketedHas(b, p0, f);
    RightQueue(b, rank, f, done, ss, p0, l, cs, p, ce, j);
    RightRoom(b, rank, f, done, ss, p0, l, cs, p, ce, j);
    var (hi, k, w) := (f[256 * ss + 256], Prev(|b|, p[j]), ce[c1]);
    var (p', ce') := (p[w := k], ce[c1 := w - 1]);
    RowSizes(b, f, done, ss, p, l, Down(p, j + 1, hi), cs, ce, ss);
    RightScanned(f, |b|, ss, p, ce, j, c1, k);
    LeftRowsKept(b, f, done, ss, p, l, cs, c1, w, k);
    RightRowsCopy(b, f, done, ss, p, Down(p, j + 1, hi), p[j], cs, ce, c1);
    RightStepKept(b, f, done, ss, p0, p, cs, ce, c1, k);
    InsideSet(p, |b|, w, k);
    RightScanIs(b, rank, f, done, ss, p0, l, cs, p', ce', j - 1, Down(p, j, hi), Down(p', ce'[ss] + 1, hi));
  }

  // ------------------------------------------------------------ both scans done

  /** Bucket [c, ss] holds distinct positions with its two bytes, in rotation order. */
  ghost predicate RowDone(b: seq<byte>, rank: seq<int>, f: seq<int>, ss: int, p: seq<int>, c: int)
    requires |rank| == |b| && |f| == 65537 && 0 <= ss < 256 && 0 <= c < 256 && Inside(p, |b|)
  {
    && 0 <= f[256 * c + ss] <= f[256 * c + ss + 1] <= |p|
    && Stretch(b, rank, p, 256 * c + ss, f[256 * c + ss], f[256 * c + ss + 1])
  }

  ghost predicate Stretch(b: seq<byte>, rank: seq<int>, p: seq<int>, k: int, s: int, e: int)
    requires |rank| == |b| && Inside(p, |b|) && 0 <= s <= e <= |p|
  {
    && (forall i :: s <= i < e ==> PairOf(b, p[i]) == k)
    && forall i, j :: s <= i < j < e ==> p[i] != p[j] && rank[p[i]] <= rank[p[j]]
  }

  /** Only places of open buckets [t, ss] change. */
  ghost predicate Untouched(b: seq<byte>, done: seq<bool>, ss: int, p0: seq<int>, p: seq<int>)
    requires |done| == 256 && Inside(p0, |b|) && |p| == |p0|
  {
    forall i :: 0 <= i < |p| ==> p[i] == p0[i] || (b[Next(|b|, p0[i])] as int == ss && !done[b[p0[i]]])
  }

  ghost predicate Copied(b: seq<byte>, rank: seq<int>, f: seq<int>, done: seq<bool>, ss: int, p0: seq<int>, p: seq<int>)
      {
    && |rank| == |b| && |done| == 256 && 0 <= ss < 256 && Inside(p0, |b|) && |p| == |p0| && Inside(p, |b|)
        && Bucketed(b, p, f)
    && Untouched(b, done, ss, p0, p)
    && forall t :: 0 <= t < 256 && !done[t] ==> SmallSorted(rank, p, f, t, ss)
  }

  /** The positions written from the left come before those written from the right. */
  lemma LeftBeforeRight(b: seq<byte>, rank: seq<int>, ss: int, l: seq<int>, r: seq<int>, c: int, x: int, y: int)
    requires IsRank(b, rank) && (forall i :: 0 <= i < |b| ==> 0 <= rank[i]) && 0 <= ss < 256 && 0 <= c < 256
    requires AllFalling(b, rank, true, ss, l) && AllFalling(b, rank, false, ss, r)
    requires x in Out(b, l, c) && y in Out(b, r, c) && 0 <= x < |b| && 0 <= y < |b|
    ensures x != y && rank[x] <= rank[y]
  {
    OutHas(b, l, c, x);
    OutHas(b, r, c, y);
    var (u, v) := (Next(|b|, x), Next(|b|, y));
    assert InBucket(b, rank, true, ss, u) && InBucket(b, rank, false, ss, v);
    FallingFirst(b, rank, ss, u, v);
    assert RanksMove(b, rank, x, y);
  }

  /** A full bucket: what the left scan wrote, then what the right scan wrote, backwards. */
  lemma FullRow(b: seq<byte>, rank: seq<int>, f: seq<int>, ss: int, p: seq<int>, l: seq<int>, r: seq<int>, cs: int,
      c: int)
    requires IsRank(b, rank) && (forall i :: 0 <= i < |b| ==> 0 <= rank[i]) && |f| == 65537 && 0 <= ss < 256
             && 0 <= c < 256 && Inside(p, |b|)
    requires AllFalling(b, rank, true, ss, l) && AllFalling(b, rank, false, ss, r)
    requires LeftRow(b, f, ss, p, l, cs, c) && RightRow(b, f, ss, p, r, cs, cs - 1, c)
    ensures RowDone(b, rank, f, ss, p, c)
  {
    var (s, e) := (f[256 * c + ss], f[256 * c + ss + 1]);
    forall i | s <= i < e ensures PairOf(b, p[i]) == 256 * c + ss {
      FullRowAt(b, f, ss, p, l, r, cs, c, i);
      OutBelongs(b, l, ss, c);
      OutBelongs(b, r, ss, c);
    }
    forall i, j | s <= i < j < e ensures p[i] != p[j] && rank[p[i]] <= rank[p[j]] {
      FullRowOrdered(b, rank, f, ss, p, l, r, cs, c, i, j);
    }
  }

  lemma FullRowAt(b: seq<byte>, f: seq<int>, ss: int, p: seq<int>, l: seq<int>, r: seq<int>, cs: int, c: int, i: int)
    requires |f| == 65537 && 0 <= ss < 256 && 0 <= c < 256 && Inside(p, |b|) && Inside(l, |b|) && Inside(r, |b|)
    requires LeftRow(b, f, ss, p, l, cs, c) && RightRow(b, f, ss, p, r, cs, cs - 1, c)
    requires f[256 * c + ss] <= i < f[256 * c + ss + 1]
    ensures 0 <= f[256 * c + ss] <= cs <= f[256 * c + ss + 1] <= |p|
    ensures |Out(b, l, c)| == cs - f[256 * c + ss] && |Out(b, r, c)| == f[256 * c + ss + 1] - cs
    ensures p[i] == if i < cs then Out(b, l, c)[i - f[256 * c + ss]] else Out(b, r, c)[f[256 * c + ss + 1] - 1 - i]
  {
  }

  lemma FullRowOrdered(b: seq<byte>, rank: seq<int>, f: seq<int>, ss: int, p: seq<int>, l: seq<int>, r: seq<int>,
      cs: int, c: int, i: int, j: int)
    requires IsRank(b, rank) && (forall i :: 0 <= i < |b| ==> 0 <= rank[i]) && |f| == 65537 && 0 <= ss < 256
             && 0 <= c < 256 && Inside(p, |b|)
    requires AllFalling(b, rank, true, ss, l) && AllFalling(b, rank, false, ss, r)
    requires LeftRow(b, f, ss, p, l, cs, c) && RightRow(b, f, ss, p, r, cs, cs - 1, c)
    requires 0 <= f[256 * c + ss] <= i < j < f[256 * c + ss + 1] <= |p|
    ensures p[i] != p[j] && rank[p[i]] <= rank[p[j]]
  {
    var (s, e) := (f[256 * c + ss], f[256 * c + ss + 1]);
    var (x, y) := (Out(b, l, c), Out(b, r, c));
    FullRowAt(b, f, ss, p, l, r, cs, c, i);
    FullRowAt(b, f, ss, p, l, r, cs, c, j);
    if i < cs <= j {
      LeftBeforeRight(b, rank, ss, l, r, c, p[i], p[j]);
    } else if j < cs {
      OutOrdered(b, rank, true, l, c);
      assert Le(rank, true, x[i - s], x[j - s]);
    } else {
      OutOrdered(b, rank, false, r, c);
      assert Le(rank, false, y[e - 1 - j], y[e - 1 - i]);
    }
  }

  ghost predicate RegionHolds(b: seq<byte>, p: seq<int>, f: seq<int>, k: int)
    requires |f| == 65537 && 0 <= k < 65536 && Inside(p, |b|)
  {
    forall i :: f[k] <= i < f[k + 1] ==> 0 <= i < |p| && PairOf(b, p[i]) == k
  }

  /** Places filled bucket by bucket, the others as they were: still every position once, each in its bucket. */
  lemma Assemble(b: seq<byte>, rank: seq<int>, f: seq<int>, done: seq<bool>, ss: int, p0: seq<int>, p: seq<int>)
    requires |rank| == |b| && |done| == 256 && 0 <= ss < 256 && Bucketed(b, p0, f) && |p| == |b| && Inside(p, |b|)
             && Inside(p0, |b|)
    requires Untouched(b, done, ss, p0, p)
    requires forall t :: 0 <= t < 256 && !done[t] ==> RowDone(b, rank, f, ss, p, t)
    ensures Copied(b, rank, f, done, ss, p0, p)
  {
    forall k | 0 <= k < 65536 ensures RegionHolds(b, p, f, k) {
      forall i | f[k] <= i < f[k + 1] ensures 0 <= i < |p| && PairOf(b, p[i]) == k {
        PlaceInside(f, |b|, k, i);
        assert PairOf(b, p0[i]) == k;
        if p[i] != p0[i] { assert RowDone(b, rank, f, ss, p, b[p0[i]] as int); }
      }
    }
    forall i, j | 0 <= i < j < |p| ensures p[i] != p[j] {
      ApartStill(b, rank, f, done, ss, p0, p, i, j);
    }
    forall t | 0 <= t < 256 && !done[t] ensures SmallSorted(rank, p, f, t, ss) {
      assert RowDone(b, rank, f, ss, p, t);
    }
  }

  lemma PlaceInside(f: seq<int>, n: nat, k: int, i: int)
    requires Starts(f, n) && 0 <= k < 65536 && f[k] <= i < f[k + 1]
    ensures 0 <= i < n
  {
    assert f[0] <= f[k] && f[k + 1] <= f[65536];
  }

  lemma ApartStill(b: seq<byte>, rank: seq<int>, f: seq<int>, done: seq<bool>, ss: int, p0: seq<int>, p: seq<int>,
      i: int, j: int)
    requires |rank| == |b| && |done| == 256 && 0 <= ss < 256 && Bucketed(b, p0, f) && |p| == |b| && Inside(p, |b|)
             && Inside(p0, |b|)
    requires Untouched(b, done, ss, p0, p) && 0 <= i < j < |p|
    requires forall t :: 0 <= t < 256 && !done[t] ==> RowDone(b, rank, f, ss, p, t)
    requires |f| == 65537 && forall k :: 0 <= k < 65536 ==> RegionHolds(b, p, f, k)
    ensures p[i] != p[j]
  {
    var k := RegionOf(f, |b|, i, 0, 65536);
    var m := RegionOf(f, |b|, j, 0, 65536);
    assert RegionHolds(b, p, f, k) && RegionHolds(b, p, f, m);
    if k == m && (p[i] != p0[i] || p[j] != p0[j]) {
      var c := if p[i] != p0[i] then b[p0[i]] as int else b[p0[j]] as int;
      assert PairOf(b, p0[i]) == k && PairOf(b, p0[j]) == m;
      assert RowDone(b, rank, f, ss, p, c);
      assert k == 256 * c + ss;
    }
  }

  lemma AllFilled(b: seq<byte>, rank: seq<int>, f: seq<int>, done: seq<bool>, ss: int, p0: seq<int>, l: seq<int>,
      cs: seq<int>, p: seq<int>, ce: seq<int>, r: seq<int>)
    requires |ce| == 256 && 0 <= ss < 256 && RightScan(b, rank, f, done, ss, p0, l, cs, p, ce, ce[ss])
    requires |rank| == |b| && AllFalling(b, rank, false, ss, r) && |f| == 65537
             && 0 <= ce[ss] + 1 <= f[256 * ss + 256] <= |p|
    requires r == Down(p, ce[ss] + 1, f[256 * ss + 256])
    requires forall x :: 0 <= x < |b| && b[x] as int == ss ==>
             InBucket(b, rank, true, ss, x) || InBucket(b, rank, false, ss, x)
    ensures |cs| == 256 && |done| == 256 && Inside(p, |b|)
    ensures forall c :: 0 <= c < 256 && !done[c] ==> cs[c] == ce[c] + 1
    ensures forall c :: 0 <= c < 256 && !done[c] ==> RowDone(b, rank, f, ss, p, c)
  {
    hide *;
    RightScanHas(b, rank, f, done, ss, p0, l, cs, p, ce, ce[ss]);
    SettingHas(b, rank, f, done, ss, p0);
    FallingHas(b, rank, false, ss, r);
    forall c | 0 <= c < 256 && !done[c] ensures cs[c] == ce[c] + 1 && RowDone(b, rank, f, ss, p, c) {
      RowSizes(b, f, done, ss, p, l, r, cs, ce, c);
      BothFill(b, rank, p0, f, ss, l, r, c);
      FullRow(b, rank, f, ss, p, l, r, cs[c], c);
    }
  }

  lemma SettingHas(b: seq<byte>, rank: seq<int>, f: seq<int>, done: seq<bool>, ss: int, p0: seq<int>)
    requires Setting(b, rank, f, done, ss, p0)
    ensures IsRank(b, rank) && |rank| == |b| && (forall i :: 0 <= i < |b| ==> 0 <= rank[i]) && Bucketed(b, p0, f)
            && RowSorted(rank, p0, f, ss)
  {
  }

  lemma KeptUntouched(b: seq<byte>, done: seq<bool>, ss: int, p0: seq<int>, p: seq<int>, cs: seq<int>, ce: seq<int>)
    requires |done| == |cs| == |ce| == 256 && |p| == |p0| && Inside(p0, |b|) && AllKept(b, done, ss, p0, p, cs, ce)
    ensures Untouched(b, done, ss, p0, p)
  {
    forall i | 0 <= i < |p| ensures p[i] == p0[i] || (b[Next(|b|, p0[i])] as int == ss && !done[b[p0[i]]]) {
      assert Kept(b, done, ss, p0, p, cs, ce, i);
    }
  }

  /** A rotation of big bucket `ss` equal to the next one. */
  ghost predicate Unchanging(b: seq<byte>, rank: seq<int>, ss: int, x: int)
    requires |rank| == |b| && 0 <= x < |b|
  {
    b[x] as int == ss && rank[Next(|b|, x)] == rank[x]
  }

  lemma FirstFalls(b: seq<byte>, rank: seq<int>, up: bool, ss: int, q: seq<int>)
    requires |rank| == |b| && AllFalling(b, rank, up, ss, q) && q != []
    ensures 0 <= q[0] < |b| && rank[Next(|b|, q[0])] != rank[q[0]]
  {
    assert InBucket(b, rank, up, ss, q[0]);
  }

  lemma NothingFalls(b: seq<byte>, rank: seq<int>, up: bool, ss: int, q: seq<int>)
    requires |rank| == |b| && AllFalling(b, rank, up, ss, q)
    requires forall i, j :: 0 <= i < |b| && 0 <= j < |b| ==> rank[i] == rank[j]
    ensures q == []
  {
    if q != [] {
      FirstFalls(b, rank, up, ss, q);
      assert false;
    }
  }

  lemma OneBucket(b: seq<byte>, p0: seq<int>, f: seq<int>, ss: int)
    requires Bucketed(b, p0, f) && 0 <= ss < 256 && |b| > 0 && forall y :: 0 <= y < |b| ==> PairOf(b, y) == 257 * ss
    ensures f[257 * ss] == 0 && f[257 * ss + 1] == f[256 * ss + 256] == |b|
  {
    StartsBelow(b, p0, f, ss);
    if f[257 * ss] > 0 { var k := PlaceKey(b, p0, f, 0, 0, 257 * ss); }
    if f[257 * ss + 1] < |b| { var k := PlaceKey(b, p0, f, |b| - 1, 257 * ss + 1, 65536); }
  }

  /** The block is one byte over and over: neither scan reads anything, and any order is rotation order. */
  lemma OneByteBlock(b: seq<byte>, rank: seq<int>, f: seq<int>, done: seq<bool>, ss: int, p0: seq<int>, l: seq<int>,
      cs: seq<int>, p: seq<int>, ce: seq<int>, r: seq<int>, x: int)
    requires |ce| == 256 && 0 <= ss < 256 && RightScan(b, rank, f, done, ss, p0, l, cs, p, ce, ce[ss])
    requires |rank| == |b| && AllFalling(b, rank, false, ss, r) && |f| == 65537
             && 0 <= ce[ss] + 1 <= f[256 * ss + 256] <= |p|
    requires r == Down(p, ce[ss] + 1, f[256 * ss + 256])
    requires 0 <= x < |b| && Unchanging(b, rank, ss, x)
    ensures Copied(b, rank, f, done, ss, p0, p) && |cs| == 256 && cs[ss] == 0 && ce[ss] == |b| - 1
  {
    RightScanHas(b, rank, f, done, ss, p0, l, cs, p, ce, ce[ss]);
    forall y | 0 <= y < |b| ensures b[y] == b[x] && rank[y] == rank[x] { OneByteAll(b, rank, x, y); }
    hide RightScan, Setting, IsRank, LeftRows, RightRows, Queue, AllKept, Bucketed, AllFalling, RowDone, Untouched;
    OneBucket(b, p0, f, ss);
    NothingFalls(b, rank, true, ss, l);
    NothingFalls(b, rank, false, ss, r);
    RowSizes(b, f, done, ss, p, l, r, cs, ce, ss);
    KeptUntouched(b, done, ss, p0, p, cs, ce);
    forall t | 0 <= t < 256 && !done[t] ensures RowDone(b, rank, f, ss, p, t) {
      OneByteRow(b, rank, f, done, ss, p0, p, cs, ce, t);
    }
    Assemble(b, rank, f, done, ss, p0, p);
  }

  lemma OneByteRow(b: seq<byte>, rank: seq<int>, f: seq<int>, done: seq<bool>, ss: int, p0: seq<int>, p: seq<int>,
      cs: seq<int>, ce: seq<int>, t: int)
    requires |rank| == |b| && |done| == |cs| == |ce| == 256 && 0 <= ss < 256 && 0 <= t < 256 && Bucketed(b, p0, f)
             && Inside(p0, |b|)
    requires |p| == |b| && Inside(p, |b|) && cs[ss] == 0 && ce[ss] == |b| - 1 && AllKept(b, done, ss, p0, p, cs, ce)
    requires forall y, z :: 0 <= y < |b| && 0 <= z < |b| ==> rank[y] == rank[z]
    requires forall y :: 0 <= y < |b| ==> b[y] as int == ss
    ensures RowDone(b, rank, f, ss, p, t)
  {
    assert f[0] <= f[256 * t + ss] <= f[256 * t + ss + 1] <= f[65536];
    forall i | 0 <= i < |p| ensures p[i] == p0[i] { assert Kept(b, done, ss, p0, p, cs, ce, i); }
  }

  lemma RightCaughtUp(b: seq<byte>, rank: seq<int>, f: seq<int>, done: seq<bool>, ss: int, p0: seq<int>, l: seq<int>,
      cs: seq<int>, p: seq<int>, ce: seq<int>)
    requires |ce| == 256 && 0 <= ss < 256 && RightScan(b, rank, f, done, ss, p0, l, cs, p, ce, ce[ss])
    ensures |rank| == |b| && |f| == 65537 && 0 <= ce[ss] + 1 <= f[256 * ss + 256] <= |p|
    ensures AllFalling(b, rank, false, ss, Down(p, ce[ss] + 1, f[256 * ss + 256]))
  {
    hide *;
    RightScanHas(b, rank, f, done, ss, p0, l, cs, p, ce, ce[ss]);
    SettingHas(b, rank, f, done, ss, p0);
    RightFirst(b, rank, p0, f, ss);
    DownIsRev(p0, f[257 * ss + 1], f[256 * ss + 256]);
    CaughtUp(b, rank, false, ss, Down(p0, f[257 * ss + 1], f[256 * ss + 256]), Down(p, ce[ss] + 1, f[256 * ss + 256]));
  }

  lemma DownIsRev(p: seq<int>, from: int, to: int)
    requires 0 <= from <= to <= |p|
    ensures Down(p, from, to) == Rev(p[from..to])
  {
  }

  /** Both scans done: every open bucket [t, ss] is in order, and the two cursors have met. */
  lemma ScansMeet(b: seq<byte>, rank: seq<int>, f: seq<int>, done: seq<bool>, ss: int, p0: seq<int>, l: seq<int>,
      cs: seq<int>, p: seq<int>, ce: seq<int>)
    requires |ce| == 256 && 0 <= ss < 256 && RightScan(b, rank, f, done, ss, p0, l, cs, p, ce, ce[ss])
    ensures Copied(b, rank, f, done, ss, p0, p) && |cs| == 256 && |rank| == |b|
    ensures cs[ss] == ce[ss] + 1 || (cs[ss] == 0 && ce[ss] == |b| - 1)
    ensures cs[ss] == ce[ss] + 1 <==> |b| == 0 || !exists x :: 0 <= x < |b| && Unchanging(b, rank, ss, x)
  {
    RightCaughtUp(b, rank, f, done, ss, p0, l, cs, p, ce);
    RightScanHas(b, rank, f, done, ss, p0, l, cs, p, ce, ce[ss]);
    var r := Down(p, ce[ss] + 1, f[256 * ss + 256]);
    if exists x :: 0 <= x < |b| && Unchanging(b, rank, ss, x) {
      var x :| 0 <= x < |b| && Unchanging(b, rank, ss, x);
      OneByteBlock(b, rank, f, done, ss, p0, l, cs, p, ce, r, x);
    } else {
      forall x | 0 <= x < |b| && b[x] as int == ss ensures InBucket(b, rank, true, ss, x)
          || InBucket(b, rank, false, ss, x) {
        assert !Unchanging(b, rank, ss, x);
      }
      AllFilled(b, rank, f, done, ss, p0, l, cs, p, ce, r);
      KeptUntouched(b, done, ss, p0, p, cs, ce);
      hide RightScan, Setting, Bucketed, RowDone, Untouched, AllFalling, Queue, InBucket, LeftRows, RightRows, AllKept;
      Assemble(b, rank, f, done, ss, p0, p);
    }
  }

  // ------------------------------------------------------------ step 2 on the arrays

  const SETMASK := 0x20_0000

  /** `v & CLEARMASK`, `v | SETMASK` and `v & SETMASK` for entries of `ftab`, which stay below twice the mask. */
  function Clear(v: int): int { v % SETMASK }

  function Set(v: int): int { if IsSet(v) then v else v + SETMASK }

  predicate IsSet(v: int) { v >= SETMASK }

  /** `ftab` holds the first place of every small bucket, marked or not. */
  ghost predicate Table(ftab: seq<int>, f: seq<int>) {
    |ftab| == |f| == 65537 && forall k :: 0 <= k < 65537 ==> 0 <= ftab[k] < 2 * SETMASK && Clear(ftab[k]) == f[k]
  }

  /** Small bucket [c, d] lists its rotations in lexicographic order. */
  ghost predicate InOrderAt(b: seq<byte>, p: seq<int>, f: seq<int>, c: int, d: int)
    requires |f| == 65537 && 0 <= c < 256 && 0 <= d < 256 && Inside(p, |b|)
  {
    var k := 256 * c + d;
    && 0 <= f[k] && f[k + 1] <= |p|
    && forall i, j :: f[k] <= i <= j < f[k + 1] ==> LexLe(Rotation(b, p[i]), Rotation(b, p[j]))
  }

  lemma OrderIsSorted(b: seq<byte>, p: seq<int>, f: seq<int>, c: int, d: int)
    requires |f| == 65537 && 0 <= c < 256 && 0 <= d < 256 && Inside(p, |b|)
    ensures InOrderAt(b, p, f, c, d) <==> SmallSorted(Keys(b), p, f, c, d)
  {
    var k := 256 * c + d;
    if 0 <= f[k] && f[k + 1] <= |p| {
      forall i, j | f[k] <= i <= j < f[k + 1]
        ensures LexLe(Rotation(b, p[i]), Rotation(b, p[j])) <==> Keys(b)[p[i]] <= Keys(b)[p[j]]
      {
        WindowIsRotation(b, p[i]);
        WindowIsRotation(b, p[j]);
        CodeOrder(Rotation(b, p[i]), Rotation(b, p[j]));
      }
    }
  }

  /** What holds when step 2 begins: the small buckets [ss, j], j != ss, are in order and `ss` is not done. */
  ghost predicate Ready(b: seq<byte>, p: seq<int>, f: seq<int>, done: seq<bool>, ss: int) {
    && 0 < |b| < SETMASK && Inside(p, |b|) && Bucketed(b, p, f) && |done| == 256 && 0 <= ss < 256 && !done[ss]
    && forall j :: 0 <= j < 256 && j != ss ==> InOrderAt(b, p, f, ss, j)
  }

  lemma ReadySets(b: seq<byte>, p: seq<int>, f: seq<int>, done: seq<bool>, ss: int)
    requires Ready(b, p, f, done, ss)
    ensures Setting(b, Keys(b), f, done, ss, p)
  {
    KeysRank(b);
    StartsBelow(b, p, f, ss);
    forall d | 0 <= d < 256 && d != ss ensures SmallSorted(Keys(b), p, f, ss, d) {
      assert InOrderAt(b, p, f, ss, d);
      OrderIsSorted(b, p, f, ss, d);
    }
    hide InOrderAt, IsRank, Bucketed, SmallSorted;
  }

  /** A block of one byte has equal rotations only. */
  lemma {:induction false} SameByteWindow(b: seq<byte>, x: int, y: int, h: nat)
    requires 0 <= x < |b| && 0 <= y < |b| && forall i, j :: 0 <= i < |b| && 0 <= j < |b| ==> b[i] == b[j]
    ensures Window(b, x, h) == Window(b, y, h)
    decreases h
  {
    if h > 0 {
      SameByteWindow(b, Next(|b|, x), Next(|b|, y), h - 1);
    }
  }

  /** A rotation of bucket `ss` equals the next one just when the block is that byte over and over. */
  lemma UnchangingBlock(b: seq<byte>, ss: int)
    requires |b| > 0 && 0 <= ss < 256
    ensures (exists x :: 0 <= x < |b| && Unchanging(b, Keys(b), ss, x)) <==> forall i ::
            0 <= i < |b| ==> b[i] as int == ss
  {
    KeysRank(b);
    if x :| 0 <= x < |b| && Unchanging(b, Keys(b), ss, x) {
      forall i | 0 <= i < |b| ensures b[i] as int == ss { OneByteAll(b, Keys(b), x, i); }
    }
    if forall i :: 0 <= i < |b| ==> b[i] as int == ss {
      SameByteWindow(b, 0, Next(|b|, 0), |b|);
      assert Unchanging(b, Keys(b), ss, 0);
    }
  }

  method ReadCursors(ftab: array<int>, ss: int, ghost f: seq<int>) returns (copyStart: array<int>, copyEnd: array<int>)
    requires Table(ftab[..], f) && 0 <= ss < 256
    ensures fresh(copyStart) && fresh(copyEnd) && copyStart != copyEnd && copyStart.Length == copyEnd.Length == 256
    ensures forall c :: 0 <= c < 256 ==> copyStart[c] == f[256 * c + ss] && copyEnd[c] == f[256 * c + ss + 1] - 1
  {
    copyStart, copyEnd := new int[256], new int[256];
    for j := 0 to 256
      invariant forall c :: 0 <= c < j ==> copyStart[c] == f[256 * c + ss] && copyEnd[c] == f[256 * c + ss + 1] - 1
      invariant Table(ftab[..], f)
      modifies copyStart, copyEnd
    {
      assert ftab[..][256 * j + ss] == ftab[256 * j + ss] && ftab[..][256 * j + ss + 1] == ftab[256 * j + ss + 1];
      copyStart[j] := Clear(ftab[256 * j + ss]);
      copyEnd[j] := Clear(ftab[256 * j + ss + 1]) - 1;
    }
  }

  /** Scans the bucket from its first place to the cursor that it moves itself. */
  method CopyLeft(ptr: array<int>, block: seq<byte>, bigDone: seq<bool>, copyStart: array<int>, ss: int, from: int,
                  ghost f: seq<int>, ghost p0: seq<int>)
    requires ptr != copyStart && copyStart.Length == 256 && 0 <= ss < 256 && p0 == ptr[..]
    requires LeftScan(block, Keys(block), f, bigDone, ss, p0, p0, copyStart[..], from)
    modifies ptr, copyStart
    ensures LeftScan(block, Keys(block), f, bigDone, ss, p0, ptr[..], copyStart[..], copyStart[ss])
  {
    hide *;
    var j := from;
    LeftInside(block, Keys(block), f, bigDone, ss, p0, ptr[..], copyStart[..], j);
    while j < copyStart[ss]
      invariant LeftScan(block, Keys(block), f, bigDone, ss, p0, ptr[..], copyStart[..], j)
      invariant j <= copyStart[ss] <= ptr.Length
      decreases ptr.Length - j
    {
      ghost var (p, cs) := (ptr[..], copyStart[..]);
      LeftInside(block, Keys(block), f, bigDone, ss, p0, p, cs, j);
      InsideAt(p, |block|, j);
      var k := ptr[j] - 1;
      if k < 0 { k := k + |block|; }
      PrevIs(|block|, ptr[j]);
      var c1 := block[k];
      if !bigDone[c1] {
        LeftCopy(block, Keys(block), f, bigDone, ss, p0, p, cs, j, c1 as int);
        ptr[copyStart[c1]] := k;
        copyStart[c1] := copyStart[c1] + 1;
        assert ptr[..] == p[cs[c1] := k] && copyStart[..] == cs[c1 as int := cs[c1] + 1];
      } else {
        LeftSkip(block, Keys(block), f, bigDone, ss, p0, p, cs, j);
      }
      j := j + 1;
      LeftInside(block, Keys(block), f, bigDone, ss, p0, ptr[..], copyStart[..], j);
    }
  }

  lemma InsideAt(p: seq<int>, n: nat, j: int)
    requires Inside(p, n) && 0 <= j < |p|
    ensures 0 <= p[j] < n
  {
  }

  lemma PrevIs(n: nat, x: int)
    requires 0 <= x < n
    ensures Prev(n, x) == if x - 1 < 0 then x - 1 + n else x - 1
  {
  }

  /** Scans the bucket from its last place down to the other cursor. */
  method CopyRight(ptr: array<int>, block: seq<byte>, bigDone: seq<bool>, copyEnd: array<int>, ss: int, from: int,
                   ghost f: seq<int>, ghost p0: seq<int>, ghost l: seq<int>, ghost cs: seq<int>)
    requires ptr != copyEnd && copyEnd.Length == 256 && 0 <= ss < 256
    requires RightScan(block, Keys(block), f, bigDone, ss, p0, l, cs, ptr[..], copyEnd[..], from)
    modifies ptr, copyEnd
    ensures RightScan(block, Keys(block), f, bigDone, ss, p0, l, cs, ptr[..], copyEnd[..], copyEnd[ss])
  {
    hide *;
    var j := from;
    RightInside(block, Keys(block), f, bigDone, ss, p0, l, cs, ptr[..], copyEnd[..], j);
    while j > copyEnd[ss]
      invariant RightScan(block, Keys(block), f, bigDone, ss, p0, l, cs, ptr[..], copyEnd[..], j)
      invariant -1 <= copyEnd[ss] <= j
      decreases j + 1
    {
      ghost var (p, ce) := (ptr[..], copyEnd[..]);
      RightInside(block, Keys(block), f, bigDone, ss, p0, l, cs, p, ce, j);
      InsideAt(p, |block|, j);
      var k := ptr[j] - 1;
      if k < 0 { k := k + |block|; }
      PrevIs(|block|, ptr[j]);
      var c1 := block[k];
      if !bigDone[c1] {
        RightCopy(block, Keys(block), f, bigDone, ss, p0, l, cs, p, ce, j, c1 as int);
        ptr[copyEnd[c1]] := k;
        copyEnd[c1] := copyEnd[c1] - 1;
        assert ptr[..] == p[ce[c1] := k] && copyEnd[..] == ce[c1 as int := ce[c1] - 1];
      } else {
        RightSkip(block, Keys(block), f, bigDone, ss, p0, l, cs, p, ce, j);
      }
      j := j - 1;
      RightInside(block, Keys(block), f, bigDone, ss, p0, l, cs, ptr[..], copyEnd[..], j);
    }
  }

  /** Marks every small bucket [t, ss] as sorted. */
  method MarkColumn(ftab: array<int>, ss: int, ghost f: seq<int>)
    requires Table(ftab[..], f) && 0 <= ss < 256
    modifies ftab
    ensures Table(ftab[..], f)
    ensures forall k :: 0 <= k < 65537 ==> (IsSet(ftab[k]) <==> IsSet(old(ftab[k])) || (k < 65536 && k % 256 == ss))
  {
    for j := 0 to 256
      invariant Table(ftab[..], f)
      invariant forall k ::
                0 <= k < 65537 ==> (IsSet(ftab[k]) <==> IsSet(old(ftab[k])) || (k < 256 * j && k % 256 == ss))
    {
      ghost var was := ftab[..];
      var at := 256 * j + ss;
      assert at % 256 == ss && at / 256 == j;
      assert was[at] == ftab[at];
      ftab[at] := Set(ftab[at]);
      assert ftab[..] == was[at := Set(was[at])];
    }
  }

  /** What step 2 achieves: every bucket [t, ss], t not done, is in order; nothing else moved; no position got lost. */
  ghost predicate ColumnSorted(b: seq<byte>, p0: seq<int>, p: seq<int>, f: seq<int>, done: seq<bool>, ss: int) {
    && |done| == 256 && 0 <= ss < 256 && Inside(p0, |b|) && |p| == |p0| && Inside(p, |b|)
    && Bucketed(b, p, f) && Untouched(b, done, ss, p0, p)
    && forall t :: 0 <= t < 256 && !done[t] ==> InOrderAt(b, p, f, t, ss)
  }

  lemma CopiedSorts(b: seq<byte>, f: seq<int>, done: seq<bool>, ss: int, p0: seq<int>, p: seq<int>)
    requires Copied(b, Keys(b), f, done, ss, p0, p)
    ensures ColumnSorted(b, p0, p, f, done, ss)
  {
    forall t | 0 <= t < 256 && !done[t] ensures InOrderAt(b, p, f, t, ss) {
      OrderIsSorted(b, p, f, t, ss);
    }
  }

  lemma ReadyHas(b: seq<byte>, p: seq<int>, f: seq<int>, done: seq<bool>, ss: int)
    requires Ready(b, p, f, done, ss)
    ensures 0 < |b| && |done| == 256 && 0 <= ss < 256 && |f| == 65537 && 0 <= f[256 * ss] && |p| == |b|
  {
    StartsBelow(b, p, f, ss);
  }

  lemma TableHas(ftab: seq<int>, f: seq<int>, k: int)
    requires Table(ftab, f) && 0 <= k < 65537
    ensures |ftab| == 65537 && |f| == 65537 && Clear(ftab[k]) == f[k]
  {
  }

  /**
   * Step 2 of the main sorting loop for big bucket `ss`. The condition of assertion 1007 always holds, by its
   * second half exactly for blocks of one byte.
   */
  method CopyStep(ptr: array<int>, block: seq<byte>, ftab: array<int>, bigDone: seq<bool>, ss: int, ghost f: seq<int>)
    returns (met: bool, plain: bool)
    requires ptr != ftab && Ready(block, ptr[..], f, bigDone, ss) && Table(ftab[..], f)
    modifies ptr, ftab
    ensures ColumnSorted(block, old(ptr[..]), ptr[..], f, bigDone, ss)
    ensures met && (plain <==> !forall i :: 0 <= i < |block| ==> block[i] as int == ss)
    ensures Table(ftab[..], f)
    ensures forall k :: 0 <= k < 65537 ==> (IsSet(ftab[k]) <==> IsSet(old(ftab[k])) || (k < 65536 && k % 256 == ss))
  {
    hide *;
    ghost var (p0, tab) := (ptr[..], ftab[..]);
    ReadyHas(block, p0, f, bigDone, ss);
    ReadySets(block, p0, f, bigDone, ss);
    TableHas(ftab[..], f, 256 * ss);
    TableHas(ftab[..], f, 256 * ss + 256);
    var copyStart, copyEnd := ReadCursors(ftab, ss, f);
    LeftStarts(block, Keys(block), f, bigDone, ss, p0, copyStart[..]);
    CopyLeft(ptr, block, bigDone, copyStart, ss, Clear(ftab[256 * ss]), f, p0);
    ghost var cs := copyStart[..];
    RightStarts(block, Keys(block), f, bigDone, ss, p0, ptr[..], cs, copyEnd[..]);
    ghost var l := ptr[f[256 * ss]..cs[ss]];
    CopyRight(ptr, block, bigDone, copyEnd, ss, Clear(ftab[256 * ss + 256]) - 1, f, p0, l, cs);
    met := copyStart[ss] - 1 == copyEnd[ss] || (copyStart[ss] == 0 && copyEnd[ss] == |block| - 1);
    plain := copyStart[ss] - 1 == copyEnd[ss];
    ScansMeet(block, Keys(block), f, bigDone, ss, p0, l, cs, ptr[..], copyEnd[..]);
    UnchangingBlock(block, ss);
    CopiedSorts(block, f, bigDone, ss, p0, ptr[..]);
    MarkColumn(ftab, ss, f);
  }
}
