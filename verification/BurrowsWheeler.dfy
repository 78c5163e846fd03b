/** Undoing the Burrows-Wheeler transform, for every block and every way of breaking ties between equal rotations. */
module BurrowsWheeler {
  import opened Base
  import opened Rotations

  /**
   * The T vector: rows listed by their last byte, rows with equal bytes in row order.
   * Row `t[p]` is the row whose last byte is the first byte of row `p`.
   */
  ghost predicate StableOrder(l: seq<byte>, t: seq<int>) {
    && IsPerm(t, |l|)
    && forall p, q :: 0 <= p < q < |l| ==> l[t[p]] < l[t[q]] || (l[t[p]] == l[t[q]] && t[p] < t[q])
  }

  /** The bytes emitted by `k` steps along T from row `p`. */
  function Walk(l: seq<byte>, t: seq<int>, p: int, k: nat): (w: seq<byte>)
    requires IsPerm(t, |l|) && 0 <= p < |l|
    ensures |w| == k
    decreases k
  {
    if k == 0 then [] else [l[p]] + Walk(l, t, t[p], k - 1)
  }

  /** The row reached by `k` steps along T. */
  function Follow(t: seq<int>, p: int, k: nat): (q: int)
    requires IsPerm(t, |t|) && 0 <= p < |t|
    ensures 0 <= q < |t|
  {
    if k == 0 then p else t[Follow(t, p, k - 1)]
  }

  lemma {:induction false} FollowFirst(t: seq<int>, p: int, k: nat)
    requires IsPerm(t, |t|) && 0 <= p < |t|
    ensures Follow(t, t[p], k) == Follow(t, p, k + 1)
  {
    if k > 0 {
      FollowFirst(t, p, k - 1);
    } else {
      assert Follow(t, p, 0) == p;
    }
  }

  /** Numbers that order the rotations of a ring of bytes, equal numbers standing for equal rotations. */
  ghost predicate IsRank(b: seq<byte>, rank: seq<int>) {
    && |rank| == |b|
    && forall i, j :: 0 <= i < |b| && 0 <= j < |b| ==> RanksMove(b, rank, i, j)
  }

  /** Equal rotations agree on their first byte and stay equal one byte on; a byte put in front orders first. */
  ghost predicate RanksMove(b: seq<byte>, rank: seq<int>, i: int, j: int)
    requires |rank| == |b| && 0 <= i < |b| && 0 <= j < |b|
  {
    var (x, y) := (rank[Next(|b|, i)], rank[Next(|b|, j)]);
    && (rank[i] == rank[j] <==> b[i] == b[j] && x == y)
    && (x == y ==> b[i] == b[j])
    && (b[i] < b[j] || (b[i] == b[j] && x <= y) ==> rank[i] <= rank[j])
  }

  ghost predicate SortsByRank(rank: seq<int>, ptr: seq<int>) {
    && IsPerm(ptr, |rank|)
    && forall i, j :: 0 <= i <= j < |rank| ==> rank[ptr[i]] <= rank[ptr[j]]
  }

  /** The starts one byte before the rows that T visits in turn. */
  function Previous(n: nat, ptr: seq<int>, t: seq<int>): (q: seq<int>)
    requires IsPerm(ptr, n) && IsPerm(t, n)
    ensures IsPerm(q, n)
  {
    seq(n, i requires 0 <= i < n => Prev(n, ptr[t[i]]))
  }

  /** One step along T goes from a rotation to the rotation one byte further on, up to equality of rotations. */
  lemma StepAdvances(b: seq<byte>, rank: seq<int>, ptr: seq<int>, t: seq<int>, p: int)
    requires IsRank(b, rank) && SortsByRank(rank, ptr) && StableOrder(LastColumn(b, ptr), t) && 0 <= p < |b|
    ensures rank[ptr[t[p]]] == rank[Next(|b|, ptr[p])]
  {
    var l, q := LastColumn(b, ptr), Previous(|b|, ptr, t);
    forall i, j | 0 <= i <= j < |b| ensures rank[q[i]] <= rank[q[j]] {
      assert l[t[i]] == b[q[i]] && l[t[j]] == b[q[j]];
      assert RanksMove(b, rank, q[i], q[j]);
    }
    SortedKeysAgree(rank, ptr, q, p);
    assert RanksMove(b, rank, ptr[p], q[p]);
  }

  lemma {:induction false} WalkFrom(b: seq<byte>, rank: seq<int>, ptr: seq<int>, t: seq<int>, p: int, k: nat)
    requires IsRank(b, rank) && SortsByRank(rank, ptr) && StableOrder(LastColumn(b, ptr), t)
    requires 0 <= p < |b| && k < |b| && rank[ptr[p]] == rank[Next(|b|, k)]
    ensures Walk(LastColumn(b, ptr), t, p, |b| - k) == b[k..]
    decreases |b| - k
  {
    assert RanksMove(b, rank, Prev(|b|, ptr[p]), k);
    assert b[k..] == [b[k]] + b[k + 1..];
    if k + 1 < |b| {
      StepAdvances(b, rank, ptr, t, p);
      assert RanksMove(b, rank, ptr[p], k + 1);
      WalkFrom(b, rank, ptr, t, t[p], k + 1);
    } else {
      assert Walk(LastColumn(b, ptr), t, t[p], 0) == [];
    }
  }

  /** The numeric codes of the rotations. */
  function Keys(b: seq<byte>): (k: seq<int>)
    ensures |k| == |b|
  {
    seq(|b|, j requires 0 <= j < |b| => Key(b, j, |b|))
  }

  lemma WindowLast(b: seq<byte>, j: int, h: nat)
    requires 0 <= j < |b|
    ensures Window(b, j, h + 1) == Window(b, j, h) + [b[Advance(|b|, j, h)]]
  {
    WindowSplit(b, j, h, 1);
    assert Window(b, Next(|b|, Advance(|b|, j, h)), 0) == [];
  }

  lemma AdvanceBack(n: nat, j: int)
    requires 0 <= j < n
    ensures Advance(n, Next(n, j), n - 1) == j
  {
    AdvanceIsShift(n, Next(n, j), n - 1);
  }

  /** A rotation's key and the next rotation's key share all digits but one. */
  lemma KeyDigits(b: seq<byte>, j: int) returns (rest: nat)
    requires 0 <= j < |b|
    ensures rest < Pow256(|b| - 1)
    ensures Key(b, j, |b|) == b[j] * Pow256(|b| - 1) + rest
    ensures Key(b, Next(|b|, j), |b|) == rest * 256 + b[j]
  {
    var m: nat, k := |b| - 1, Next(|b|, j);
    var w := Window(b, k, m);
    rest := Code(w);
    CodeBound(w);
    assert Window(b, j, m + 1) == [b[j]] + w;
    WindowLast(b, k, m);
    AdvanceBack(|b|, j);
    CodeAppend(w, [b[j]]);
    assert Pow256(1) == 256 by { assert Pow256(0) == 1; }
    assert Code([b[j]]) == b[j] by { assert Pow256(0) == 1; }
  }

  lemma KeysMove(b: seq<byte>, i: int, j: int)
    requires 0 <= i < |b| && 0 <= j < |b|
    ensures RanksMove(b, Keys(b), i, j)
  {
    var x := KeyDigits(b, i);
    var y := KeyDigits(b, j);
    LeadingDigit(b[i], x, b[j], y, Pow256(|b| - 1));
    LeadingDigit(x, b[i], y, b[j], 256);
  }

  lemma KeysRank(b: seq<byte>)
    ensures IsRank(b, Keys(b))
  {
    forall i, j | 0 <= i < |b| && 0 <= j < |b| ensures RanksMove(b, Keys(b), i, j) {
      KeysMove(b, i, j);
    }
  }

  /**
   * Burrows-Wheeler inversion. Whatever the block, periodic ones included, and however equal rotations
   * were ordered, following T for |b| steps from the row after `origPtr` spells the block.
   */
  lemma Inversion(b: seq<byte>, ptr: seq<int>, t: seq<int>, origPtr: int)
    requires SortsRotations(b, ptr) && StableOrder(LastColumn(b, ptr), t)
    requires 0 <= origPtr < |b| && ptr[origPtr] == 0
    ensures Walk(LastColumn(b, ptr), t, t[origPtr], |b|) == b
  {
    SortedByKey(b, ptr);
    KeysRank(b);
    StepAdvances(b, Keys(b), ptr, t, origPtr);
    WalkFrom(b, Keys(b), ptr, t, t[origPtr], 0);
  }
}
