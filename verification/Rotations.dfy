/** Rotations of a block, their lexicographic order, and the last column of the sorted rotations. */
module Rotations {
  import opened Base

  /** The `h` bytes met when the block is read as a ring from position `j`. */
  function Window(b: seq<byte>, j: int, h: nat): (w: seq<byte>)
    requires 0 <= j < |b|
    ensures |w| == h
    decreases h
  {
    if h == 0 then [] else [b[j]] + Window(b, Next(|b|, j), h - 1)
  }

  function Next(n: nat, j: int): (k: int)
    requires 0 <= j < n
    ensures 0 <= k < n
  {
    if j + 1 == n then 0 else j + 1
  }

  function Prev(n: nat, j: int): (k: int)
    requires 0 <= j < n
    ensures 0 <= k < n
    ensures Next(n, k) == j
  {
    if j == 0 then n - 1 else j - 1
  }

  /** `j` advanced `h` places round a ring of `n`. */
  function Advance(n: nat, j: int, h: nat): (k: int)
    requires 0 <= j < n
    ensures 0 <= k < n
    decreases h
  {
    if h == 0 then j else Advance(n, Next(n, j), h - 1)
  }

  lemma {:induction false} AdvanceIsShift(n: nat, j: int, h: nat)
    requires 0 <= j < n && h <= n
    ensures Advance(n, j, h) == if j + h < n then j + h else j + h - n
    decreases h
  {
    if h > 0 {
      AdvanceIsShift(n, Next(n, j), h - 1);
    }
  }

  /** Rotation `j` of the block, as the sorting code's comments mean it: all of the block, starting at `j`. */
  function Rotation(b: seq<byte>, j: int): seq<byte>
    requires 0 <= j < |b|
  {
    b[j..] + b[..j]
  }

  lemma {:induction false} WindowPlain(b: seq<byte>, j: int, h: nat)
    requires 0 <= j < |b| && j + h <= |b|
    ensures Window(b, j, h) == b[j..j + h]
    decreases h
  {
    if h > 0 && j + 1 < |b| {
      WindowPlain(b, j + 1, h - 1);
    }
  }

  lemma {:induction false} WindowSplit(b: seq<byte>, j: int, g: nat, h: nat)
    requires 0 <= j < |b|
    ensures Window(b, j, g + h) == Window(b, j, g) + Window(b, Advance(|b|, j, g), h)
    decreases g
  {
    if g > 0 {
      WindowSplit(b, Next(|b|, j), g - 1, h);
    }
  }

  lemma WindowIsRotation(b: seq<byte>, j: int)
    requires 0 <= j < |b|
    ensures Window(b, j, |b|) == Rotation(b, j)
  {
    var n := |b|;
    WindowSplit(b, j, n - j, j);
    WindowPlain(b, j, n - j);
    AdvanceIsShift(n, j, n - j);
    WindowPlain(b, 0, j);
  }

  /** Lexicographic order on strings of one length. */
  ghost predicate LexLe(s: seq<byte>, t: seq<byte>)
    requires |s| == |t|
  {
    s == [] || s[0] < t[0] || (s[0] == t[0] && LexLe(s[1..], t[1..]))
  }

  function Pow256(n: nat): (p: nat)
    ensures p >= 1
  {
    if n == 0 then 1 else 256 * Pow256(n - 1)
  }

  /** A byte string as a number in base 256. */
  function Code(s: seq<byte>): nat
  {
    if s == [] then 0 else s[0] * Pow256(|s| - 1) + Code(s[1..])
  }

  lemma {:induction false} CodeBound(s: seq<byte>)
    ensures Code(s) < Pow256(|s|)
  {
    if s != [] {
      CodeBound(s[1..]);
      LeadingDigit(s[0], Code(s[1..]), 255, Pow256(|s| - 1) - 1, Pow256(|s| - 1));
    }
  }

  lemma {:induction false} Pow256Add(a: nat, b: nat)
    ensures Pow256(a + b) == Pow256(a) * Pow256(b)
  {
    if a > 0 {
      Pow256Add(a - 1, b);
      assert Pow256(a) * Pow256(b) == 256 * (Pow256(a - 1) * Pow256(b));
    }
  }

  lemma {:induction false} CodeAppend(s: seq<byte>, t: seq<byte>)
    ensures Code(s + t) == Code(s) * Pow256(|t|) + Code(t)
  {
    if s == [] {
      assert s + t == t;
    } else {
      CodeAppend(s[1..], t);
      assert (s + t)[1..] == s[1..] + t;
      Pow256Add(|s| - 1, |t|);
      Distribute(s[0], Pow256(|s| - 1), Code(s[1..]), Pow256(|t|));
    }
  }

  lemma Distribute(h: int, m: int, c: int, k: int)
    ensures (h * m + c) * k == h * (m * k) + c * k
  {
  }

  /** Numeric order of base-256 codes is lexicographic order. */
  lemma {:induction false} CodeOrder(s: seq<byte>, t: seq<byte>)
    requires |s| == |t|
    ensures LexLe(s, t) <==> Code(s) <= Code(t)
    ensures s == t <==> Code(s) == Code(t)
  {
    if s != [] {
      CodeOrder(s[1..], t[1..]);
      CodeBound(s[1..]);
      CodeBound(t[1..]);
      LeadingDigit(s[0], Code(s[1..]), t[0], Code(t[1..]), Pow256(|s| - 1));
      assert s == [s[0]] + s[1..] && t == [t[0]] + t[1..];
    }
  }

  /** The number that orders position `j` by its first `h` bytes. */
  function Key(b: seq<byte>, j: int, h: nat): nat
    requires 0 <= j < |b|
  {
    Code(Window(b, j, h))
  }

  /** The contract of block sorting: every start once, rotations nondecreasing, ties in any order. */
  ghost predicate SortsRotations(b: seq<byte>, ptr: seq<int>) {
    && IsPerm(ptr, |b|)
    && forall i, j :: 0 <= i <= j < |b| ==> LexLe(Rotation(b, ptr[i]), Rotation(b, ptr[j]))
  }

  lemma SortedByKey(b: seq<byte>, ptr: seq<int>)
    requires IsPerm(ptr, |b|)
    ensures SortsRotations(b, ptr) <==>
            forall i, j :: 0 <= i <= j < |b| ==> Key(b, ptr[i], |b|) <= Key(b, ptr[j], |b|)
  {
    forall i, j | 0 <= i <= j < |b|
      ensures LexLe(Rotation(b, ptr[i]), Rotation(b, ptr[j])) <==> Key(b, ptr[i], |b|) <= Key(b, ptr[j], |b|)
    {
      WindowIsRotation(b, ptr[i]);
      WindowIsRotation(b, ptr[j]);
      CodeOrder(Rotation(b, ptr[i]), Rotation(b, ptr[j]));
    }
  }

  /** The byte written for each sorted row: the one that precedes its rotation in the block. */
  function LastColumn(b: seq<byte>, ptr: seq<int>): (l: seq<byte>)
    requires IsPerm(ptr, |b|)
    ensures |l| == |b|
  {
    seq(|b|, i requires 0 <= i < |b| => b[Prev(|b|, ptr[i])])
  }
}
