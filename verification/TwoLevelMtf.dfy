/** The decoder's two-level move-to-front array: sixteen windows of sixteen bytes that drift down through 4096. */
module TwoLevelMtf {
  import opened Base
  import opened MoveToFront
  import opened GenerateMtf

  const MTFA_SIZE := 4096
  const MTFL_SIZE := 16

  /** The windows lie in order, without overlap. */
  ghost predicate Windows(b: seq<int>) {
    && |b| == 16
    && (forall k :: 0 <= k < 16 ==> 0 <= b[k] <= MTFA_SIZE - 256 + 16 * k)
    && (forall k, m :: 0 <= k < m < 16 ==> b[k] + 16 <= b[m])
  }

  /** Byte `j` of window `k`. */
  ghost function Cell(a: seq<byte>, b: seq<int>, k: int, j: int): byte
    requires |a| == MTFA_SIZE && |b| == 16 && 0 <= k < 16 && 0 <= j < 16
    requires 0 <= b[k] <= MTFA_SIZE - 16
  {
    a[b[k] + j]
  }

  /** Read window by window, the array holds the list `l`. */
  ghost predicate Represents(a: seq<byte>, b: seq<int>, l: seq<byte>) {
    && |a| == MTFA_SIZE && |l| == 256 && Windows(b)
    && forall k, j :: 0 <= k < 16 && 0 <= j < 16 ==> Cell(a, b, k, j) == l[16 * k + j]
  }

  /** MTF init: the identity list, packed at the top. */
  method Init(mtfa: array<byte>, mtfbase: array<int>)
    requires mtfa.Length == MTFA_SIZE && mtfbase.Length == 16 && mtfa as object != mtfbase
    modifies mtfa, mtfbase
    ensures Represents(mtfa[..], mtfbase[..], Identity()) && mtfbase[0] >= 1
  {
    var kk := MTFA_SIZE - 1;
    for ii := 16 downto 0
      invariant kk == MTFA_SIZE - 256 + 16 * ii - 1
      invariant forall k :: ii <= k < 16 ==> mtfbase[k] == MTFA_SIZE - 256 + 16 * k
      invariant forall x :: kk < x < MTFA_SIZE ==> mtfa[x] as int == x - (MTFA_SIZE - 256)
    {
      for jj := 16 downto 0
        invariant kk == MTFA_SIZE - 256 + 16 * ii + jj - 1
        invariant forall k :: ii < k < 16 ==> mtfbase[k] == MTFA_SIZE - 256 + 16 * k
        invariant forall x :: kk < x < MTFA_SIZE ==> mtfa[x] as int == x - (MTFA_SIZE - 256)
      {
        mtfa[kk] := ii * MTFL_SIZE + jj;
        kk := kk - 1;
      }
      mtfbase[ii] := kk + 1;
    }
  }

  /** The bytes at p..p+off-1 move up one place; the byte at `p` stays. */
  ghost predicate ShiftedUp(a: seq<byte>, a': seq<byte>, p: int, off: int) {
    && |a'| == |a| && 0 <= p && 0 <= off && p + off < |a|
    && (forall x :: p < x <= p + off ==> a'[x] == a[x - 1])
    && (forall x :: 0 <= x < |a| && !(p < x <= p + off) ==> a'[x] == a[x])
  }

  /** A position within the first window: four places at a time, then one at a time. */
  method FrontLow(mtfa: array<byte>, pp: int, nn0: int) returns (uc: byte)
    requires 0 <= pp && 0 <= nn0 < MTFL_SIZE && pp + MTFL_SIZE <= mtfa.Length
    modifies mtfa
    ensures uc == old(mtfa[pp + nn0]) && mtfa[pp] == uc
    ensures forall x :: pp < x <= pp + nn0 ==> mtfa[x] == old(mtfa[x - 1])
    ensures forall x :: 0 <= x < mtfa.Length && !(pp <= x <= pp + nn0) ==> mtfa[x] == old(mtfa[x])
  {
    ghost var a := mtfa[..];
    var nn := nn0;
    uc := mtfa[pp + nn];
    while nn > 3
      invariant 0 <= nn <= nn0 && mtfa.Length == |a|
      invariant forall x :: pp + nn < x <= pp + nn0 ==> mtfa[x] == a[x - 1]
      invariant forall x :: 0 <= x < mtfa.Length && !(pp + nn < x <= pp + nn0) ==> mtfa[x] == a[x]
    {
      var z := pp + nn;
      mtfa[z] := mtfa[z - 1];
      mtfa[z - 1] := mtfa[z - 2];
      mtfa[z - 2] := mtfa[z - 3];
      mtfa[z - 3] := mtfa[z - 4];
      nn := nn - 4;
    }
    while nn > 0
      invariant 0 <= nn <= nn0 && mtfa.Length == |a|
      invariant forall x :: pp + nn < x <= pp + nn0 ==> mtfa[x] == a[x - 1]
      invariant forall x :: 0 <= x < mtfa.Length && !(pp + nn < x <= pp + nn0) ==> mtfa[x] == a[x]
    {
      mtfa[pp + nn] := mtfa[pp + nn - 1];
      nn := nn - 1;
    }
    mtfa[pp] := uc;
  }

  /** First loop of the general case: the window is shifted up over the byte taken out. */
  method ShiftWindow(mtfa: array<byte>, base: int, off: int)
    requires 0 <= base && 0 <= off && base + off < mtfa.Length
    modifies mtfa
    ensures ShiftedUp(old(mtfa[..]), mtfa[..], base, off)
  {
    ghost var a := mtfa[..];
    var pp := base + off;
    while pp > base
      invariant base <= pp <= base + off
      invariant forall x :: pp < x <= base + off ==> mtfa[x] == a[x - 1]
      invariant forall x :: 0 <= x < mtfa.Length && !(pp < x <= base + off) ==> mtfa[x] == a[x]
    {
      mtfa[pp] := mtfa[pp - 1];
      pp := pp - 1;
    }
  }

  /** Window bases while the loop over the lower windows stands at `lno`. */
  ghost predicate Lowering(b0: seq<int>, b: seq<int>, n0: int, lno: int) {
    && |b0| == |b| == 16 && 0 <= lno <= n0 < 16
    && forall k :: 0 <= k < 16 ==>
         b[k] == b0[k] + (if lno < k < n0 then -1 else if k == lno == n0 then 1 else 0)
  }

  /** The cells written by that loop: each window above `lno` got the last byte of the window below it. */
  ghost predicate Carried(a1: seq<byte>, a: seq<byte>, b0: seq<int>, n0: int, lno: int)
    requires Windows(b0)
  {
    && |a| == |a1| == MTFA_SIZE && 0 <= lno <= n0 < 16
    && (forall k :: lno < k <= n0 ==> a[Slot(b0, n0, k)] == a1[b0[k - 1] + 15])
    && (forall x :: 0 <= x < MTFA_SIZE && (forall k :: lno < k <= n0 ==> x != Slot(b0, n0, k)) ==> a[x] == a1[x])
  }

  /** Where window `k` starts once it has been lowered. */
  ghost function Slot(b0: seq<int>, n0: int, k: int): (x: int)
    requires Windows(b0) && 1 <= k <= n0 < 16
    ensures 0 <= x < MTFA_SIZE
  {
    assert b0[0] + 16 <= b0[k];
    if k == n0 then b0[k] else b0[k] - 1
  }

  lemma CarryOne(a1: seq<byte>, a: seq<byte>, b0: seq<int>, n0: int, lno: int)
    requires Windows(b0) && Carried(a1, a, b0, n0, lno) && lno > 0
    ensures a[b0[lno - 1] + 15] == a1[b0[lno - 1] + 15]
    ensures Carried(a1, a[Slot(b0, n0, lno) := a1[b0[lno - 1] + 15]], b0, n0, lno - 1)
  {
    forall k | lno < k <= n0 ensures b0[lno - 1] + 15 < Slot(b0, n0, k) && Slot(b0, n0, lno) < Slot(b0, n0, k) { }
  }

  /** Second loop of the general case. */
  method CarryDown(mtfa: array<byte>, mtfbase: array<int>, n0: int)
    requires mtfa.Length == MTFA_SIZE && mtfbase.Length == 16 && mtfa as object != mtfbase
    requires 0 < n0 < 16 && Windows(mtfbase[..])
    modifies mtfa, mtfbase
    ensures Carried(old(mtfa[..]), mtfa[..], old(mtfbase[..]), n0, 0)
    ensures Lowering(old(mtfbase[..]), mtfbase[..], n0, 0)
  {
    ghost var a1, b0 := mtfa[..], mtfbase[..];
    var lno := n0;
    mtfbase[lno] := mtfbase[lno] + 1;
    assert Carried(a1, mtfa[..], b0, n0, lno);
    hide Carried;
    while lno > 0
      invariant 0 <= lno <= n0 && Lowering(b0, mtfbase[..], n0, lno)
      invariant Carried(a1, mtfa[..], b0, n0, lno)
    {
      ghost var a := mtfa[..];
      CarryOne(a1, a, b0, n0, lno);
      mtfbase[lno] := mtfbase[lno] - 1;
      mtfa[mtfbase[lno]] := mtfa[mtfbase[lno - 1] + MTFL_SIZE - 1];
      assert mtfa[..] == a[Slot(b0, n0, lno) := a1[b0[lno - 1] + 15]];
      lno := lno - 1;
    }
  }

  lemma FrontAt(l: seq<byte>, j: int, p: int)
    requires 0 <= j < |l| && 0 <= p < |l|
    ensures Front(l, j)[p] == if p == 0 then l[j] else if p <= j then l[p - 1] else l[p]
  {
  }

  lemma CellIs(a: seq<byte>, b: seq<int>, l: seq<byte>, k: int, j: int)
    requires Represents(a, b, l) && 0 <= k < 16 && 0 <= j < 16
    ensures 0 <= b[k] + j < |a| && a[b[k] + j] == l[16 * k + j]
  {
    assert Cell(a, b, k, j) == l[16 * k + j];
  }

  /** A byte that no step wrote, outside the window that was shifted, is as it was. */
  lemma Kept(a0: seq<byte>, a1: seq<byte>, a2: seq<byte>, b0: seq<int>, n0: int, off: int, k: int, j: int)
    requires Windows(b0) && |a0| == MTFA_SIZE && 0 < n0 < 16 && 0 <= off < 16 && 0 <= k < 16 && 0 <= j < 16
    requires ShiftedUp(a0, a1, b0[n0], off) && Carried(a1, a2, b0, n0, 0)
    requires k != n0 || j > off
    requires j < 15 || k >= n0
    ensures b0[k] + j < MTFA_SIZE && a2[b0[k] + j] == a0[b0[k] + j]
  {
    NoSlot(b0, n0, k, j);
  }

  lemma NoSlot(b0: seq<int>, n0: int, k: int, j: int)
    requires Windows(b0) && 0 < n0 < 16 && 0 <= k < 16 && 0 <= j < 16 && (k == n0 ==> j > 0) && (j < 15 || k >= n0)
    ensures forall m :: 0 < m <= n0 ==> b0[k] + j != Slot(b0, n0, m)
  {
    forall m | 0 < m <= n0 ensures b0[k] + j != Slot(b0, n0, m) {
      if m < k { assert b0[m] + 16 <= b0[k]; } else if k < m { assert b0[k] + 16 <= b0[m]; }
    }
  }

  /** The general case up to its last write: the window shifted, the lower windows carried down. */
  ghost predicate Moved(a0: seq<byte>, a1: seq<byte>, a2: seq<byte>, b0: seq<int>, b2: seq<int>, nn: int) {
    var n0 := nn / 16;
    && 0 < n0 < 16 && |a0| == MTFA_SIZE && Windows(b0) && b0[0] >= 1
    && ShiftedUp(a0, a1, b0[n0], nn % 16) && Carried(a1, a2, b0, n0, 0)
    && |b2| == 16 && forall m :: 0 <= m < 16 ==> b2[m] == if m < n0 then b0[m] - 1 else b0[m]
  }

  lemma MovedBounds(a0: seq<byte>, a1: seq<byte>, a2: seq<byte>, b0: seq<int>, b2: seq<int>, nn: int)
    requires 0 <= nn < 256 && Moved(a0, a1, a2, b0, b2, nn)
    ensures |a2| == MTFA_SIZE && Windows(b2)
  {
    hide ShiftedUp;
    forall k | 0 < k < 16 ensures b0[0] + 16 <= b0[k] { }
  }

  lemma BasesIn(b: seq<int>, k: int)
    requires Windows(b) && 0 <= k < 16
    ensures |b| == 16 && 0 <= b[0] <= MTFA_SIZE - 16 && 0 <= b[k] <= MTFA_SIZE - 16
  {
  }

  lemma ListLength(a: seq<byte>, b: seq<int>, l: seq<byte>, nn: int)
    requires Represents(a, b, l) && 0 <= nn < 256
    ensures |a| == MTFA_SIZE && |l| == |Front(l, nn)| == 256
  {
  }

  /** The first byte of a window at or below the hit comes from the end of the window before. */
  lemma FirstOfWindow(a0: seq<byte>, a1: seq<byte>, a2: seq<byte>, b0: seq<int>, b2: seq<int>, nn: int, k: int)
    requires 0 <= nn < 256 && Moved(a0, a1, a2, b0, b2, nn) && 0 < k <= nn / 16
    ensures 0 <= b2[0] < b2[k] < MTFA_SIZE && b0[k - 1] + 15 < MTFA_SIZE && a2[b2[k]] == a0[b0[k - 1] + 15]
  {
    assert b2[k] == Slot(b0, nn / 16, k);
    assert b0[k - 1] + 16 <= b0[k] && b0[0] + 16 <= b0[k];
    assert b0[k] <= b0[nn / 16] by { if k < nn / 16 { assert b0[k] + 16 <= b0[nn / 16]; } }
  }

  /** The bytes of the hit window up to the hit moved up one place. */
  lemma UpToHit(a0: seq<byte>, a1: seq<byte>, a2: seq<byte>, b0: seq<int>, b2: seq<int>, nn: int, j: int)
    requires 0 <= nn < 256 && Moved(a0, a1, a2, b0, b2, nn) && 0 < j <= nn % 16
    ensures 0 <= b2[0] < b2[nn / 16] + j < MTFA_SIZE && a2[b2[nn / 16] + j] == a0[b0[nn / 16] + j - 1]
  {
    var n0 := nn / 16;
    NoSlot(b0, n0, n0, j);
    assert b0[0] + 16 <= b0[n0];
  }

  /** The windows below the hit moved down one place. */
  lemma BelowHit(a0: seq<byte>, a1: seq<byte>, a2: seq<byte>, b0: seq<int>, b2: seq<int>, nn: int, k: int, j: int)
    requires 0 <= nn < 256 && Moved(a0, a1, a2, b0, b2, nn) && 0 <= k < nn / 16 && 0 < j < 16
    ensures 0 <= b2[0] < b2[k] + j < MTFA_SIZE && a2[b2[k] + j] == a0[b0[k] + j - 1]
  {
    Kept(a0, a1, a2, b0, nn / 16, nn % 16, k, j - 1);
    assert k > 0 ==> b0[0] + 16 <= b0[k];
  }

  /** Everything after the hit is as it was. */
  lemma PastHit(a0: seq<byte>, a1: seq<byte>, a2: seq<byte>, b0: seq<int>, b2: seq<int>, nn: int, k: int, j: int)
    requires 0 <= nn < 256 && Moved(a0, a1, a2, b0, b2, nn) && nn < 16 * k + j && k < 16 && 0 <= j < 16
    requires k >= nn / 16
    ensures 0 <= b2[0] < b2[k] + j < MTFA_SIZE && a2[b2[k] + j] == a0[b0[k] + j]
  {
    Kept(a0, a1, a2, b0, nn / 16, nn % 16, k, j);
    assert b0[0] + 16 <= b0[k];
  }

  /** One byte of the general case: where it came from, and what the list says. */
  lemma MovedCell(a0: seq<byte>, a1: seq<byte>, a2: seq<byte>, b0: seq<int>, b2: seq<int>, l: seq<byte>, nn: int,
      k: int, j: int)
    requires Represents(a0, b0, l) && 16 <= nn < 256 && 0 <= k < 16 && 0 <= j < 16
    requires Moved(a0, a1, a2, b0, b2, nn)
    ensures 0 <= b2[0] < MTFA_SIZE && 0 <= b2[k] + j < MTFA_SIZE && |a2| == MTFA_SIZE && |Front(l, nn)| == 256
    ensures a2[b2[0] := l[nn]][b2[k] + j] == Front(l, nn)[16 * k + j]
  {
    hide *;
    MovedBounds(a0, a1, a2, b0, b2, nn);
    BasesIn(b2, k);
    ListLength(a0, b0, l, nn);
    FrontAt(l, nn, 16 * k + j);
    if j == 0 && k <= nn / 16 {
      if k > 0 {
        CellIs(a0, b0, l, k - 1, 15);
        FirstOfWindow(a0, a1, a2, b0, b2, nn, k);
      }
    } else if k < nn / 16 {
      CellIs(a0, b0, l, k, j - 1);
      BelowHit(a0, a1, a2, b0, b2, nn, k, j);
    } else if k == nn / 16 && j <= nn % 16 {
      CellIs(a0, b0, l, k, j - 1);
      UpToHit(a0, a1, a2, b0, b2, nn, j);
    } else {
      CellIs(a0, b0, l, k, j);
      PastHit(a0, a1, a2, b0, b2, nn, k, j);
    }
  }

  lemma MovedUp(a0: seq<byte>, a1: seq<byte>, a2: seq<byte>, b0: seq<int>, b2: seq<int>, a3: seq<byte>, l: seq<byte>,
      nn: int)
    requires Represents(a0, b0, l) && 16 <= nn < 256
    requires Moved(a0, a1, a2, b0, b2, nn)
    requires |b2| == 16 && |a2| == MTFA_SIZE && 0 <= b2[0] < MTFA_SIZE && a3 == a2[b2[0] := l[nn]]
    ensures Represents(a3, b2, Front(l, nn))
  {
    MovedBounds(a0, a1, a2, b0, b2, nn);
    assert |Front(l, nn)| == 256;
    hide Moved, Front;
    forall k, j | 0 <= k < 16 && 0 <= j < 16 ensures Cell(a3, b2, k, j) == Front(l, nn)[16 * k + j] {
      MovedCell(a0, a1, a2, b0, b2, l, nn, k, j);
    }
  }

  /** A position within the first window moves only bytes of that window. */
  lemma MovedLow(a0: seq<byte>, a: seq<byte>, b: seq<int>, l: seq<byte>, nn: int)
    requires Represents(a0, b, l) && 0 <= nn < 16 && |a| == |a0|
    requires a[b[0]] == a0[b[0] + nn]
    requires forall x :: b[0] < x <= b[0] + nn ==> a[x] == a0[x - 1]
    requires forall x :: 0 <= x < |a| && !(b[0] <= x <= b[0] + nn) ==> a[x] == a0[x]
    ensures Represents(a, b, Front(l, nn))
  {
    forall k, j | 0 <= k < 16 && 0 <= j < 16 ensures Cell(a, b, k, j) == Front(l, nn)[16 * k + j] {
      FrontAt(l, nn, 16 * k + j);
      hide Front;
      CellIs(a0, b, l, 0, nn);
      CellIs(a0, b, l, k, j);
      if k == 0 && 0 < j <= nn {
        CellIs(a0, b, l, 0, j - 1);
      }
    }
  }

  /** Progress of the rebuild: windows from `w` on have their new base, list entries from `p0` on are at the top. */
  ghost predicate Repacking(a0: seq<byte>, a: seq<byte>, b0: seq<int>, b: seq<int>, l: seq<byte>, w: int, p0: int) {
    && Represents(a0, b0, l) && |a| == MTFA_SIZE && |b| == 16 && 0 <= w <= 16 && 0 <= p0 <= 256
    && (forall k :: 0 <= k < 16 ==> b[k] == if k < w then b0[k] else MTFA_SIZE - 256 + 16 * k)
    && (forall x :: 0 <= x < MTFA_SIZE - 256 + p0 ==> a[x] == a0[x])
    && (forall x :: MTFA_SIZE - 256 + p0 <= x < MTFA_SIZE ==> a[x] == l[x - (MTFA_SIZE - 256)])
  }

  /** A byte is copied up, or stays: nothing below it that is still needed is overwritten. */
  lemma RepackOne(a0: seq<byte>, a: seq<byte>, b0: seq<int>, b: seq<int>, l: seq<byte>, ii: int, jj: int)
    requires 0 <= ii < 16 && 0 <= jj < 16 && Repacking(a0, a, b0, b, l, ii + 1, 16 * ii + jj + 1)
    ensures 0 <= b[ii] + jj < MTFA_SIZE
    ensures Repacking(a0, a[MTFA_SIZE - 256 + 16 * ii + jj := a[b[ii] + jj]], b0, b, l, ii + 1, 16 * ii + jj)
  {
    CellIs(a0, b0, l, ii, jj);
  }

  lemma RepackDone(a0: seq<byte>, a: seq<byte>, b0: seq<int>, b: seq<int>, l: seq<byte>)
    requires Repacking(a0, a, b0, b, l, 0, 0)
    ensures Represents(a, b, l)
  {
  }

  /** The periodic rebuild copies every window to the top of the array it lies in; the list is unchanged. */
  method Repack(mtfa: array<byte>, mtfbase: array<int>, ghost l: seq<byte>)
    requires mtfa.Length == MTFA_SIZE && mtfbase.Length == 16 && mtfa as object != mtfbase
    requires Represents(mtfa[..], mtfbase[..], l)
    modifies mtfa, mtfbase
    ensures Represents(mtfa[..], mtfbase[..], l) && mtfbase[0] == MTFA_SIZE - 256
  {
    ghost var a0, b0 := mtfa[..], mtfbase[..];
    var kk := MTFA_SIZE - 1;
    for ii := 16 downto 0
      invariant kk == MTFA_SIZE - 256 + 16 * ii - 1
      invariant Repacking(a0, mtfa[..], b0, mtfbase[..], l, ii, 16 * ii)
    {
      kk := RepackWindow(mtfa, mtfbase, kk, ii, a0, b0, l);
    }
    RepackDone(a0, mtfa[..], b0, mtfbase[..], l);
  }

  method RepackWindow(mtfa: array<byte>, mtfbase: array<int>, kk0: int, ii: int, ghost a0: seq<byte>,
      ghost b0: seq<int>, ghost l: seq<byte>)
    returns (kk: int)
    requires mtfa.Length == MTFA_SIZE && mtfbase.Length == 16 && mtfa as object != mtfbase && 0 <= ii < 16
    requires kk0 == MTFA_SIZE - 256 + 16 * ii + 15 && Repacking(a0, mtfa[..], b0, mtfbase[..], l, ii + 1, 16 * ii + 16)
    modifies mtfa, mtfbase
    ensures kk == kk0 - 16 && Repacking(a0, mtfa[..], b0, mtfbase[..], l, ii, 16 * ii)
  {
    kk := kk0;
    ghost var b := mtfbase[..];
    for jj := 16 downto 0
      invariant kk == MTFA_SIZE - 256 + 16 * ii + jj - 1 && mtfbase[..] == b
      invariant Repacking(a0, mtfa[..], b0, b, l, ii + 1, 16 * ii + jj)
    {
      ghost var a := mtfa[..];
      RepackOne(a0, a, b0, b, l, ii, jj);
      mtfa[kk] := mtfa[mtfbase[ii] + jj];
      assert mtfa[..] == a[MTFA_SIZE - 256 + 16 * ii + jj := a[b[ii] + jj]];
      kk := kk - 1;
    }
    mtfbase[ii] := kk + 1;
    assert mtfbase[..] == b[ii := kk + 1];
  }

  /**
   * `uc = MTF(nn)`: the two-level array does what the plain list does, for every position below 256 and every
   * sequence of calls, since the state it needs is the state it leaves.
   */
  method MoveToFrontOf(mtfa: array<byte>, mtfbase: array<int>, nn: int, ghost l: seq<byte>) returns (uc: byte)
    requires mtfa.Length == MTFA_SIZE && mtfbase.Length == 16 && mtfa as object != mtfbase
    requires 0 <= nn < 256 && Represents(mtfa[..], mtfbase[..], l) && mtfbase[0] >= 1
    modifies mtfa, mtfbase
    ensures uc == l[nn]
    ensures Represents(mtfa[..], mtfbase[..], Front(l, nn)) && mtfbase[0] >= 1
  {
    ghost var a0, b0 := mtfa[..], mtfbase[..];
    if nn < MTFL_SIZE {
      CellIs(a0, b0, l, 0, nn);
      uc := FrontLow(mtfa, mtfbase[0], nn);
      MovedLow(a0, mtfa[..], b0, l, nn);
    } else {
      uc := MoveHigh(mtfa, mtfbase, nn, l);
      if mtfbase[0] == 0 {
        Repack(mtfa, mtfbase, Front(l, nn));
      }
    }
  }

  method MoveHigh(mtfa: array<byte>, mtfbase: array<int>, nn: int, ghost l: seq<byte>) returns (uc: byte)
    requires mtfa.Length == MTFA_SIZE && mtfbase.Length == 16 && mtfa as object != mtfbase
    requires 16 <= nn < 256 && Represents(mtfa[..], mtfbase[..], l) && mtfbase[0] >= 1
    modifies mtfa, mtfbase
    ensures uc == l[nn] && Represents(mtfa[..], mtfbase[..], Front(l, nn)) && mtfbase[0] >= 0
  {
    ghost var a0, b0 := mtfa[..], mtfbase[..];
    var lno, off := nn / MTFL_SIZE, nn % MTFL_SIZE;
    CellIs(a0, b0, l, lno, off);
    uc := mtfa[mtfbase[lno] + off];
    ShiftWindow(mtfa, mtfbase[lno], off);
    ghost var a1 := mtfa[..];
    CarryDown(mtfa, mtfbase, lno);
    ghost var a2 := mtfa[..];
    mtfbase[0] := mtfbase[0] - 1;
    mtfa[mtfbase[0]] := uc;
    assert Moved(a0, a1, a2, b0, mtfbase[..], nn);
    hide Represents, Moved, ShiftedUp, Carried, Front;
    MovedBounds(a0, a1, a2, b0, mtfbase[..], nn);
    MovedUp(a0, a1, a2, b0, mtfbase[..], mtfa[..], l, nn);
  }
}
