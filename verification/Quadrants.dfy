/**
 * The quadrant descriptors: after a turn of the main loop they number the places of the big bucket just finished, so
 * that later comparisons of rotations need not read on.
 */
module Quadrants {
  import opened Base
  import opened Rotations
  import opened BurrowsWheeler
  import opened Bits
  import opened BucketCopy
  import opened MainSimpleSort

  /** Big bucket `ss` lists its rotations in order. */
  ghost predicate BigInOrder(b: seq<byte>, p: seq<int>, f: seq<int>, ss: int) {
    && |f| == 65537 && 0 <= ss < 256 && Inside(p, |b|) && |p| == |b|
    && 0 <= f[256 * ss] <= f[256 * ss + 256] <= |p|
    && forall i, j :: f[256 * ss] <= i <= j < f[256 * ss + 256] ==> Keys(b)[p[i]] <= Keys(b)[p[j]]
  }

  lemma {:induction false} ShrMonotone(u: nat, v: nat, n: nat)
    requires u <= v
    ensures Shr(u, n) <= Shr(v, n)
    decreases n
  {
    if n > 0 { ShrMonotone(u / 2, v / 2, n - 1); }
  }

  lemma ShrNext(u: nat, n: nat)
    ensures Shr(u, n + 1) == Shr(u, n) / 2
  {
    ShrAdd(u, n, 1);
    assert Shr(Shr(u, n), 1) == Shr(Shr(u, n) / 2, 0);
  }

  /** The places from the `j`-th on of big bucket `ss` are numbered; positions with other bytes are untouched. */
  ghost predicate Numbering(b: seq<byte>, over: seq<byte>, q0: seq<int>, q: seq<int>, p: seq<int>, f: seq<int>, ss: int,
      j: int, shifts: nat)
  {
    && Overshot(b, over, q) && |q0| == |q| && Inside(p, |b|) && |p| == |b| && |f| == 65537 && 0 <= ss < 256
    && 0 <= f[256 * ss] <= f[256 * ss + 256] <= |p| && 0 <= j
    && (forall k :: f[256 * ss] + j <= k < f[256 * ss + 256] ==> q[p[k]] == Shr(k - f[256 * ss], shifts))
    && forall x :: 0 <= x < |b| && b[x] as int != ss ==> q[x] == q0[x]
  }

  lemma NumberingStarts(b: seq<byte>, over: seq<byte>, q: seq<int>, p: seq<int>, f: seq<int>, ss: int, shifts: nat)
    requires Comparable(b, over, q) && BigInOrder(b, p, f, ss)
    ensures |f| == 65537 && Numbering(b, over, q, q, p, f, ss, f[256 * ss + 256] - f[256 * ss], shifts)
  {
    hide Keys, QuadrantsHold, Shr;
  }

  /** `v` written for position `a`, and for its copy past the end. */
  function Written(q: seq<int>, n: nat, a: int, v: int): (r: seq<int>)
    requires BZ_N_OVERSHOOT < n && |q| == n + BZ_N_OVERSHOOT && 0 <= a < n
    ensures |r| == |q|
  {
    if a < BZ_N_OVERSHOOT then q[a := v][a + n := v] else q[a := v]
  }

  lemma WrittenOvershot(b: seq<byte>, over: seq<byte>, q: seq<int>, a: int, v: int)
    requires Overshot(b, over, q) && 0 <= a < |b|
    ensures |q| == |b| + BZ_N_OVERSHOOT > 2 * BZ_N_OVERSHOOT && Overshot(b, over, Written(q, |b|, a, v))
  {
    var q' := Written(q, |b|, a, v);
    forall i | 0 <= i < BZ_N_OVERSHOOT ensures Repeated(over, q', |b|, i) {
      assert Repeated(over, q, |b|, i);
    }
  }

  /** The place of a big bucket holds a position with its byte. */
  lemma ByteAtPlace(b: seq<byte>, p: seq<int>, f: seq<int>, ss: int, i: int)
    requires Bucketed(b, p, f) && 0 <= ss < 256 && f[256 * ss] <= i < f[256 * ss + 256]
    ensures 0 <= i < |p| == |b| && 0 <= p[i] < |b| && b[p[i]] as int == ss
  {
    assert f[0] <= f[256 * ss] && f[256 * ss + 256] <= f[65536];
    var k := RegionOf(f, |b|, i, 256 * ss, 256 * ss + 256);
    assert PairOf(b, p[i]) == k;
  }

  lemma NumberingNext(b: seq<byte>, over: seq<byte>, q0: seq<int>, q: seq<int>, p: seq<int>, f: seq<int>, ss: int,
      j: int, shifts: nat)
    requires Numbering(b, over, q0, q, p, f, ss, j + 1, shifts) && Bucketed(b, p, f)
    requires 0 <= j && |f| == 65537 && 0 <= ss < 256 && j < f[256 * ss + 256] - f[256 * ss]
    ensures |q| == |b| + BZ_N_OVERSHOOT > 2 * BZ_N_OVERSHOOT && |p| == |b| && 0 <= p[f[256 * ss] + j] < |b|
    ensures Numbering(b, over, q0, Written(q, |b|, p[f[256 * ss] + j], Shr(j, shifts)), p, f, ss, j, shifts)
  {
    assert BZ_N_OVERSHOOT == 34;
    hide *;
    var i := f[256 * ss] + j;
    ByteAtPlace(b, p, f, ss, i);
    NumberingHas(b, over, q0, q, p, f, ss, j + 1, shifts);
    WrittenOvershot(b, over, q, p[i], Shr(j, shifts));
    var q' := Written(q, |b|, p[i], Shr(j, shifts));
    forall k | i <= k < f[256 * ss + 256] ensures q'[p[k]] == Shr(k - f[256 * ss], shifts) {
      WrittenAt(q, |b|, p[i], Shr(j, shifts), p[k]);
      PlaceNumbered(b, over, q0, q, p, f, ss, j + 1, shifts, i, k);
    }
    forall x | 0 <= x < |b| && b[x] as int != ss ensures q'[x] == q0[x] {
      WrittenAt(q, |b|, p[i], Shr(j, shifts), x);
      OtherKept(b, over, q0, q, p, f, ss, j + 1, shifts, x);
    }
    NumberingIs(b, over, q0, q', p, f, ss, j, shifts);
  }

  lemma NumberingHas(b: seq<byte>, over: seq<byte>, q0: seq<int>, q: seq<int>, p: seq<int>, f: seq<int>, ss: int,
      j: int, shifts: nat)
    requires Numbering(b, over, q0, q, p, f, ss, j, shifts)
    ensures Overshot(b, over, q) && |q0| == |q| && |p| == |b| && |f| == 65537 && 0 <= ss < 256 && 0 <= j
    ensures 0 <= f[256 * ss] <= f[256 * ss + 256] <= |p| && (forall k :: 0 <= k < |p| ==> 0 <= p[k] < |b|)
  {
    hide Overshot, Shr;
  }

  lemma PlaceNumbered(b: seq<byte>, over: seq<byte>, q0: seq<int>, q: seq<int>, p: seq<int>, f: seq<int>, ss: int,
      j: int, shifts: nat, i: int, k: int)
    requires Numbering(b, over, q0, q, p, f, ss, j, shifts) && Bucketed(b, p, f) && i == f[256 * ss] + j - 1
    requires 1 <= j && i <= k < f[256 * ss + 256]
    ensures 0 <= i <= k < |p| && (k != i ==> p[k] != p[i])
    ensures 0 <= p[k] < |q| && (k != i ==> q[p[k]] == Shr(k - f[256 * ss], shifts))
  {
    NumberingHas(b, over, q0, q, p, f, ss, j, shifts);
    hide Shr;
    assert Overshot(b, over, q);
  }

  lemma OtherKept(b: seq<byte>, over: seq<byte>, q0: seq<int>, q: seq<int>, p: seq<int>, f: seq<int>, ss: int,
      j: int, shifts: nat, x: int)
    requires Numbering(b, over, q0, q, p, f, ss, j, shifts) && 0 <= x < |b| && b[x] as int != ss
    ensures x < |q0| == |q| && q[x] == q0[x]
  {
    hide Shr, Inside;
  }

  lemma NumberingIs(b: seq<byte>, over: seq<byte>, q0: seq<int>, q: seq<int>, p: seq<int>, f: seq<int>, ss: int,
      j: int, shifts: nat)
    requires Overshot(b, over, q) && |q0| == |q| >= |b| == |p| && |f| == 65537 && 0 <= ss < 256 && 0 <= j
    requires 0 <= f[256 * ss] <= f[256 * ss + 256] <= |p| && forall k :: 0 <= k < |p| ==> 0 <= p[k] < |b|
    requires forall k :: f[256 * ss] + j <= k < f[256 * ss + 256] ==> q[p[k]] == Shr(k - f[256 * ss], shifts)
    requires forall x :: 0 <= x < |b| && b[x] as int != ss ==> q[x] == q0[x]
    ensures Numbering(b, over, q0, q, p, f, ss, j, shifts)
  {
    hide Overshot, Shr;
  }

  lemma WrittenAt(q: seq<int>, n: nat, a: int, v: int, x: int)
    requires BZ_N_OVERSHOOT < n && |q| == n + BZ_N_OVERSHOOT && 0 <= a < n && 0 <= x < n
    ensures Written(q, n, a, v)[x] == if x == a then v else q[x]
  {
  }

  /** The numbers of a finished big bucket are in the order of its rotations. */
  lemma NumberedOrder(b: seq<byte>, over: seq<byte>, q0: seq<int>, q: seq<int>, p: seq<int>, f: seq<int>, ss: int,
      shifts: nat, x: int, y: int)
    requires Numbering(b, over, q0, q, p, f, ss, 0, shifts) && Bucketed(b, p, f) && BigInOrder(b, p, f, ss)
    requires 0 <= x < |b| && 0 <= y < |b| && b[x] as int == ss && b[y] as int == ss
    ensures |q| >= |b| && (q[x] < q[y] ==> Keys(b)[x] <= Keys(b)[y])
  {
    hide Keys, Shr;
    var i := FoundInBucket(b, p, f, x);
    var j := FoundInBucket(b, p, f, y);
    var (k, m) := (PairOf(b, x), PairOf(b, y));
    assert f[256 * ss] <= f[k] && f[k + 1] <= f[256 * ss + 256];
    assert f[256 * ss] <= f[m] && f[m + 1] <= f[256 * ss + 256];
    if j < i { ShrMonotone(j - f[256 * ss], i - f[256 * ss], shifts); }
  }

  lemma AllNumbered(b: seq<byte>, over: seq<byte>, q0: seq<int>, q: seq<int>, p: seq<int>, f: seq<int>, ss: int,
      shifts: nat)
    requires Numbering(b, over, q0, q, p, f, ss, 0, shifts) && Bucketed(b, p, f) && BigInOrder(b, p, f, ss)
    requires Comparable(b, over, q0)
    ensures Comparable(b, over, q)
  {
    hide Keys, Shr, Bucketed, BigInOrder;
    forall x, y | 0 <= x < |b| && 0 <= y < |b| && b[x] == b[y] && q[x] < q[y] ensures Keys(b)[x] <= Keys(b)[y] {
      if b[x] as int == ss { NumberedOrder(b, over, q0, q, p, f, ss, shifts, x, y); }
    }
  }

  /** So many bits must be dropped for the numbers of a bucket to fit 16 bits. */
  method FindShifts(bbSize: nat) returns (shifts: nat)
    ensures Shr(bbSize, shifts) <= 65534 && (shifts > 0 ==> Shr(bbSize, shifts - 1) > 65534)
  {
    shifts := 0;
    while Shr(bbSize, shifts) > 65534
      invariant shifts > 0 ==> Shr(bbSize, shifts - 1) > 65534
      decreases Shr(bbSize, shifts)
    {
      ShrNext(bbSize, shifts);
      shifts := shifts + 1;
    }
  }

  /** One place gets its number. */
  method NumberOne(ptr: array<int>, quadrant: array<int>, nblock: int, bbStart: int, j: nat, bbSize: nat, shifts: nat,
      ghost b: seq<byte>, ghost over: seq<byte>, ghost q0: seq<int>, ghost f: seq<int>, ghost ss: int)
    requires ptr != quadrant && nblock == |b| && Bucketed(b, ptr[..], f) && |f| == 65537 && 0 <= ss < 256
    requires Numbering(b, over, q0, quadrant[..], ptr[..], f, ss, j + 1, shifts)
    requires j < bbSize && bbStart == f[256 * ss] && bbSize == f[256 * ss + 256] - f[256 * ss]
    requires Shr(bbSize, shifts) <= 65534 && 0 <= bbStart + j < |b|
    modifies quadrant
    ensures Numbering(b, over, q0, quadrant[..], ptr[..], f, ss, j, shifts)
  {
    assert BZ_N_OVERSHOOT == 34;
    hide *;
    ghost var q := quadrant[..];
    NumberingNext(b, over, q0, q, ptr[..], f, ss, j, shifts);
    ShrMonotone(j, bbSize, shifts);
    var a2update := ptr[bbStart + j];
    var qVal := Shr(j, shifts) % 65536;
    WrittenIs(q, |b|, a2update, qVal);
    quadrant[a2update] := qVal;
    if a2update < BZ_N_OVERSHOOT {
      quadrant[a2update + nblock] := qVal;
    }
  }

  /**
   * Step 3: the places of the finished big bucket are numbered from 0, the numbers cut down by as few bits as make
   * them fit 16 bits; assertion 1002 says that they do. The quadrants stay fit for comparing.
   */
  method UpdateQuadrants(ptr: array<int>, quadrant: array<int>, nblock: int, bbStart: int, bbSize: int,
      ghost b: seq<byte>, ghost over: seq<byte>, ghost f: seq<int>, ghost ss: int)
    returns (shifts: nat)
    requires ptr != quadrant && nblock == |b| && Comparable(b, over, quadrant[..]) && Bucketed(b, ptr[..], f)
    requires BigInOrder(b, ptr[..], f, ss) && |f| == 65537 && 0 <= ss < 256
    requires bbStart == f[256 * ss] && bbSize == f[256 * ss + 256] - f[256 * ss]
    modifies quadrant
    ensures Comparable(b, over, quadrant[..])
            && Numbering(b, over, old(quadrant[..]), quadrant[..], ptr[..], f, ss, 0, shifts)
    ensures forall j :: 0 <= j < bbSize ==> Shr(j, shifts) <= 65534
    ensures shifts > 0 ==> bbSize >= 0 && Shr(bbSize, shifts - 1) > 65534
  {
    ghost var (q0, p) := (quadrant[..], ptr[..]);
    shifts := FindShifts(bbSize);
    NumberingStarts(b, over, q0, p, f, ss, shifts);
    hide *;
    for j := bbSize downto 0
      invariant Numbering(b, over, q0, quadrant[..], p, f, ss, j, shifts)
    {
      NumberOne(ptr, quadrant, nblock, bbStart, j, bbSize, shifts, b, over, q0, f, ss);
    }
    AllNumbered(b, over, q0, quadrant[..], p, f, ss, shifts);
    forall j | 0 <= j < bbSize ensures Shr(j, shifts) <= 65534 { ShrMonotone(j, bbSize, shifts); }
  }

  lemma WrittenIs(q: seq<int>, n: nat, a: int, v: int)
    requires BZ_N_OVERSHOOT < n && |q| == n + BZ_N_OVERSHOOT && 0 <= a < n
    ensures Written(q, n, a, v) == if a < BZ_N_OVERSHOOT then q[a := v][a + n := v] else q[a := v]
  {
  }
}
