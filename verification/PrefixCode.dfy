/** Canonical prefix codes: the assignment of codes to lengths, and the tables that decode them. */
module PrefixCode {
  import opened Base
  import opened Counting
  import opened Bits

  const BZ_MAX_ALPHA_SIZE := 258
  const BZ_MAX_CODE_LEN := 23

  /** Code lengths as the tables may hold them: at most 20 bits. */
  ghost predicate Lengths(len: seq<byte>) {
    && 1 <= |len| <= BZ_MAX_ALPHA_SIZE
    && forall s :: 0 <= s < |len| ==> 1 <= len[s] <= 20
  }

  /** The first code of `n` bits. */
  function First(len: seq<byte>, n: nat): nat
    decreases n, 0
  {
    if n <= 1 then 0 else 2 * Past(len, n - 1)
  }

  /** The number after the last code of `n` bits. */
  function Past(len: seq<byte>, n: nat): nat
    decreases n, 1
  {
    First(len, n) + CountOf(len, n)
  }

  function Code(len: seq<byte>, s: nat): nat
    requires s < |len|
  {
    First(len, len[s]) + CountOf(len[..s], len[s])
  }

  /** The code of symbol `s` as it is written. */
  function CodeBits(len: seq<byte>, s: nat): (b: seq<bool>)
    requires s < |len|
    ensures |b| == len[s]
  {
    ToBits(Code(len, s), len[s])
  }

  /** Kraft's sum, in units of 2^-20. */
  function Kraft(len: seq<byte>): nat
    requires forall s :: 0 <= s < |len| ==> len[s] <= 20
  {
    if len == [] then 0 else Kraft(len[..|len| - 1]) + Pow2(20 - len[|len| - 1])
  }

  /** The part of Kraft's sum due to lengths below `n`. */
  function KraftBelow(len: seq<byte>, n: nat): nat
    requires forall s :: 0 <= s < |len| ==> len[s] <= 20
  {
    if len == [] then 0
    else KraftBelow(len[..|len| - 1], n) + if len[|len| - 1] < n then Pow2(20 - len[|len| - 1]) else 0
  }

  lemma {:induction false} KraftNext(len: seq<byte>, n: nat)
    requires (forall s :: 0 <= s < |len| ==> len[s] <= 20) && n <= 20
    ensures KraftBelow(len, n + 1) == KraftBelow(len, n) + CountOf(len, n) * Pow2(20 - n)
    ensures KraftBelow(len, n) <= Kraft(len)
  {
    hide Pow2;
    if len != [] {
      var t := len[..|len| - 1];
      KraftNext(t, n);
      OneMoreTime(CountOf(t, n), Pow2(20 - n));
    }
  }

  lemma OneMoreTime(c: int, p: int)
    ensures (c + 1) * p == c * p + p && 0 * p == 0
  {
  }

  lemma {:induction false} KraftStart(len: seq<byte>)
    requires forall s :: 0 <= s < |len| ==> 1 <= len[s] <= 20
    ensures KraftBelow(len, 1) == 0
  {
    if len != [] {
      KraftStart(len[..|len| - 1]);
    }
  }

  lemma {:induction false} FirstIsKraft(len: seq<byte>, n: nat)
    requires (forall s :: 0 <= s < |len| ==> 1 <= len[s] <= 20) && 1 <= n <= 20
    ensures First(len, n) * Pow2(20 - n) == KraftBelow(len, n)
  {
    hide CountOf, Kraft, KraftBelow;
    if n == 1 {
      KraftStart(len);
    } else {
      FirstIsKraft(len, n - 1);
      KraftNext(len, n - 1);
      var p := Pow2(20 - n);
      assert Pow2(20 - (n - 1)) == 2 * p;
      Rescale(First(len, n - 1), CountOf(len, n - 1), p);
    }
  }

  lemma Rescale(a: int, c: int, p: int)
    ensures 2 * (a + c) * p == a * (2 * p) + c * (2 * p)
  {
  }

  /** With Kraft's sum at most one, the codes of `n` bits fit in `n` bits. */
  lemma PastFits(len: seq<byte>, n: nat)
    requires Lengths(len) && Kraft(len) <= Pow2(20) && 1 <= n <= 20
    ensures Past(len, n) <= Pow2(n)
  {
    hide CountOf, Kraft, KraftBelow, First, Past;
    FirstIsKraft(len, n);
    KraftNext(len, n);
    var p := Pow2(20 - n);
    Pow2Add(n, 20 - n);
    assert KraftBelow(len, n + 1) <= Kraft(len) by {
      if n < 20 { KraftNext(len, n + 1); } else { KraftAll(len); }
    }
    assert Past(len, n) == First(len, n) + CountOf(len, n) by { PastIs(len, n); }
    Bounded(First(len, n), CountOf(len, n), p, Pow2(n));
  }

  lemma PastIs(len: seq<byte>, n: nat)
    ensures Past(len, n) == First(len, n) + CountOf(len, n)
  {
  }

  lemma Bounded(a: int, c: int, p: int, m: int)
    requires p >= 1 && a * p + c * p <= m * p
    ensures a + c <= m
  {
    LeadingDigit(a + c, 0, m, 0, p);
  }

  lemma {:induction false} KraftAll(len: seq<byte>)
    requires forall s :: 0 <= s < |len| ==> len[s] <= 20
    ensures KraftBelow(len, 21) == Kraft(len)
  {
    if len != [] {
      KraftAll(len[..|len| - 1]);
    }
  }

  /** Extending every code of `n` bits to `m` bits leaves all of them below the codes of `m` bits. */
  lemma {:induction false} FirstGrows(len: seq<byte>, n: nat, m: nat)
    requires 1 <= n < m
    ensures First(len, m) >= Past(len, n) * Pow2(m - n)
    decreases m - n
  {
    hide CountOf;
    if m == n + 1 {
      assert Pow2(1) == 2 by { assert Pow2(0) == 1; }
    } else {
      FirstGrows(len, n + 1, m);
      var p := Pow2(m - n - 1);
      assert Pow2(m - n) == 2 * p;
      hide First, Past;
      assert Past(len, n + 1) >= 2 * Past(len, n) by { PastIs(len, n + 1); FirstNext(len, n); PastIs(len, n); }
      Enlarge(Past(len, n + 1), Past(len, n), p);
    }
  }

  lemma Enlarge(a: int, c: int, p: int)
    requires a >= 2 * c && p >= 1
    ensures a * p >= c * (2 * p)
  {
    assert c * (2 * p) == (2 * c) * p;
    LeadingDigit(2 * c, 0, a, 0, p);
  }

  lemma CodeRange(len: seq<byte>, s: nat)
    requires s < |len|
    ensures First(len, len[s]) <= Code(len, s) < Past(len, len[s])
  {
    hide First;
    CountPrefix(len, s, len[s]);
  }

  /** The first `n` bits of a longer code lie past every code of `n` bits. */
  lemma PrefixPastCodes(len: seq<byte>, s: nat, n: nat)
    requires Lengths(len) && Kraft(len) <= Pow2(20) && s < |len| && 1 <= n < len[s]
    ensures Val(CodeBits(len, s)[..n]) >= Past(len, n)
  {
    hide CountOf, First, Past, Kraft, Val, ToBits;
    var m, c := len[s] as int, Code(len, s);
    CodeRange(len, s);
    PastFits(len, m);
    ValOfBits(c, m);
    ValSplit(CodeBits(len, s), n);
    FirstGrows(len, n, m);
    LeadingDigit(Past(len, n), 0, Val(CodeBits(len, s)[..n]), Val(CodeBits(len, s)[n..]), Pow2(m - n));
  }

  lemma CodeOfBits(len: seq<byte>, s: nat)
    requires Lengths(len) && Kraft(len) <= Pow2(20) && s < |len|
    ensures Val(CodeBits(len, s)) == Code(len, s)
  {
    hide CountOf, First, Kraft, Val, ToBits;
    CodeRange(len, s);
    PastFits(len, len[s]);
    ValOfBits(Code(len, s), len[s]);
  }

  /** No code is the beginning of another symbol's code. */
  lemma PrefixFree(len: seq<byte>, s: nat, t: nat)
    requires Lengths(len) && Kraft(len) <= Pow2(20) && s < |len| && t < |len| && s != t
    ensures !(CodeBits(len, s) <= CodeBits(len, t))
  {
    hide CountOf, First, Past, Kraft, Val, ToBits, CodeBits;
    if CodeBits(len, s) <= CodeBits(len, t) {
      CodeOfBits(len, s);
      CodeOfBits(len, t);
      CodeRange(len, s);
      if len[s] < len[t] {
        assert CodeBits(len, t)[..len[s]] == CodeBits(len, s);
        PrefixPastCodes(len, t, len[s]);
      } else {
        assert CodeBits(len, s) == CodeBits(len, t);
        SameLengthCodesDiffer(len, s, t);
      }
    }
  }

  lemma SameLengthCodesDiffer(len: seq<byte>, s: nat, t: nat)
    requires s < |len| && t < |len| && s != t && len[s] == len[t]
    ensures Code(len, s) != Code(len, t)
  {
    hide CountOf, First;
    var (i, j) := (Min(s, t), Max(s, t));
    CountPrefix(len[..j], i, len[i]);
    assert len[..j][..i] == len[..i];
  }

  /** `BZ2_hbAssignCodes`. */
  method AssignCodes(code: array<int>, length: array<byte>, minLen: int, maxLen: int, alphaSize: int)
    requires 0 <= alphaSize <= length.Length && alphaSize <= code.Length
    requires 1 <= minLen <= maxLen + 1
    requires forall s :: 0 <= s < alphaSize ==> minLen <= length[s] <= maxLen
    modifies code
    ensures forall s :: 0 <= s < alphaSize ==> code[s] == Code(length[..alphaSize], s)
  {
    hide *;
    ghost var len := length[..alphaSize];
    NoShorterCodes(len, minLen);
    NoneAssigned(code[..], len, minLen);
    var vec := 0;
    for n := minLen to maxLen + 1
      invariant vec == First(len, n)
      invariant Assigned(code[..], len, n, 0)
    {
      CountSlices(len, n);
      for i := 0 to alphaSize
        invariant vec == First(len, n) + CountOf(len[..i], n)
        invariant Assigned(code[..], len, n, i)
      {
        CountStep(len, i, n);
        AssignOne(code[..], len, n, i);
        if length[i] as int == n {
          ghost var c := code[..];
          code[i] := vec;
          assert code[..] == c[i := vec];
          vec := vec + 1;
        }
      }
      AssignNext(code[..], len, n);
      FirstNext(len, n);
      vec := vec * 2;
    }
    AllAssigned(code[..], len, maxLen);
  }

  lemma CountSlices(l: seq<byte>, c: int)
    ensures CountOf(l[..0], c) == 0 && CountOf(l[..|l|], c) == CountOf(l, c)
  {
    CountNone(c);
    assert l[..0] == [] && l[..|l|] == l;
  }

  /** The codes shorter than `n` bits are set, and of those of `n` bits the ones before symbol `i`. */
  ghost predicate Assigned(code: seq<int>, len: seq<byte>, n: int, i: int) {
    && |len| <= |code|
    && forall s :: 0 <= s < |len| && (len[s] as int < n || (len[s] as int == n && s < i)) ==> code[s] == Code(len, s)
  }

  lemma NoneAssigned(code: seq<int>, len: seq<byte>, n: int)
    requires |len| <= |code| && forall s :: 0 <= s < |len| ==> n <= len[s] as int
    ensures Assigned(code, len, n, 0)
  {
  }

  lemma AssignOne(code: seq<int>, len: seq<byte>, n: nat, i: int)
    requires Assigned(code, len, n, i) && 0 <= i < |len|
    ensures var vec := First(len, n) + CountOf(len[..i], n);
            Assigned(if len[i] as int == n then code[i := vec] else code, len, n, i + 1)
  {
    hide First, CountOf;
  }

  lemma AssignNext(code: seq<int>, len: seq<byte>, n: int)
    requires Assigned(code, len, n, |len|)
    ensures Assigned(code, len, n + 1, 0)
  {
    hide Code;
  }

  lemma AllAssigned(code: seq<int>, len: seq<byte>, maxLen: int)
    requires Assigned(code, len, maxLen + 1, 0) && forall s :: 0 <= s < |len| ==> len[s] as int <= maxLen
    ensures forall s :: 0 <= s < |len| ==> code[s] == Code(len, s)
  {
    hide Code;
  }

  lemma CountNone(c: int)
    ensures CountOf([], c) == 0
  {
  }

  lemma CountStep(l: seq<byte>, i: nat, c: int)
    requires i < |l|
    ensures CountOf(l[..i + 1], c) == CountOf(l[..i], c) + if l[i] as int == c then 1 else 0
  {
    assert l[..i + 1][..i] == l[..i];
  }

  lemma FirstNext(len: seq<byte>, n: nat)
    requires n >= 1
    ensures First(len, n + 1) == 2 * (First(len, n) + CountOf(len, n))
  {
  }

  lemma {:induction false} CountAbsent(l: seq<byte>, c: int)
    requires forall i :: 0 <= i < |l| ==> l[i] as int != c
    ensures CountOf(l, c) == 0
  {
    if l != [] {
      CountAbsent(l[..|l| - 1], c);
    }
  }

  lemma {:induction false} NoShorterCodes(len: seq<byte>, n: nat)
    requires forall s :: 0 <= s < |len| ==> n <= len[s] as int
    ensures First(len, n) == 0
  {
    if n > 1 {
      NoShorterCodes(len, n - 1);
      CountAbsent(len, n - 1);
    }
  }

  // ------------------------------------------------------------ decoding tables

  /** The largest value of `n` bits that ends a code of `n` bits; 0 for lengths the table does not have. */
  function Limit(len: seq<byte>, minLen: nat, maxLen: nat, n: nat): int {
    if minLen <= n <= maxLen then Past(len, n) - 1 else 0
  }

  /** What is subtracted from a code of `n` bits to give its place in `perm`. */
  function BaseOf(len: seq<byte>, minLen: nat, maxLen: nat, n: nat): int {
    if minLen < n <= maxLen then First(len, n) - CountBelow(len, n) else CountBelow(len, n)
  }

  /**
   * The limit/base/perm loop on the bits of a code: up to the code's length every prefix is above the limit;
   * at its length the value is within the limit and its place in the table is the symbol's.
   */
  lemma CodeDecodes(len: seq<byte>, minLen: nat, maxLen: nat, s: nat, n: nat)
    requires Lengths(len) && Kraft(len) <= Pow2(20) && s < |len|
    requires 1 <= minLen <= n <= len[s] <= maxLen <= 20
    requires forall t :: 0 <= t < |len| ==> minLen <= len[t] as int <= maxLen
    ensures n < len[s] ==> Val(CodeBits(len, s)[..n]) > Limit(len, minLen, maxLen, n)
    ensures n == len[s] ==>
              && Val(CodeBits(len, s)) <= Limit(len, minLen, maxLen, n)
              && Val(CodeBits(len, s)) - BaseOf(len, minLen, maxLen, n) == Place(len, s) < |len|
  {
    hide CountOf, CountBelow, First, Past, Kraft, Val, ToBits, CodeBits;
    if n < len[s] {
      PrefixPastCodes(len, s, n);
    } else {
      CodeOfBits(len, s);
      CodeRange(len, s);
      PlaceRange(len, s);
      if n == minLen {
        NoShorterCodes(len, n);
        NoneBelow(len, n);
      }
    }
  }

  lemma {:induction false} NoneBelow(l: seq<byte>, c: int)
    requires forall i :: 0 <= i < |l| ==> c <= l[i] as int
    ensures CountBelow(l, c) == 0
  {
    if l != [] {
      NoneBelow(l[..|l| - 1], c);
    }
  }

  /** `BZ2_hbCreateDecodeTables`. The entries of `perm` past the alphabet keep whatever they held. */
  method CreateDecodeTables(limit: array<int>, base: array<int>, perm: array<int>, length: array<byte>,
                            minLen: int, maxLen: int, alphaSize: int)
    requires limit.Length == base.Length == perm.Length == BZ_MAX_ALPHA_SIZE
    requires limit != base && limit != perm && base != perm
    requires 0 <= alphaSize <= length.Length && alphaSize <= BZ_MAX_ALPHA_SIZE && 1 <= minLen <= maxLen <= 20
    requires forall s :: 0 <= s < alphaSize ==> minLen <= length[s] <= maxLen
    modifies limit, base, perm
    ensures forall n :: 0 <= n < BZ_MAX_CODE_LEN ==> limit[n] == Limit(length[..alphaSize], minLen, maxLen, n)
    ensures forall n :: 0 <= n < BZ_MAX_CODE_LEN ==> base[n] == BaseOf(length[..alphaSize], minLen, maxLen, n)
    ensures perm[..alphaSize] == TVector(length[..alphaSize]) && perm[alphaSize..] == old(perm[alphaSize..])
  {
    FillPerm(perm, length, minLen, maxLen, alphaSize);
    CountLengths(base, length, alphaSize);
    FillLimits(limit, base, minLen, maxLen, length[..alphaSize]);
  }

  lemma BelowBand(l: seq<byte>, c: int)
    ensures CountBelow(l, c) + CountOf(l, c) == CountBelow(l, c + 1)
  {
    CountNext(l, c);
  }

  /** Symbols shorter than `i` bits, and those of `i` bits below `j`, stand at their places. */
  ghost predicate Listed(len: seq<byte>, p: seq<int>, i: int, j: int) {
    forall s :: 0 <= s < |len| && (len[s] as int < i || (len[s] as int == i && s < j)) ==>
      0 <= Place(len, s) < |p| && p[Place(len, s)] == s
  }

  lemma ListedOne(len: seq<byte>, p: seq<int>, i: int, j: int)
    requires Listed(len, p, i, j) && 0 <= j < |len| == |p|
    ensures len[j] as int == i ==> 0 <= Place(len, j) < |p| && Listed(len, p[Place(len, j) := j], i, j + 1)
    ensures len[j] as int == i ==> Place(len, j) == CountBelow(len, i) + CountOf(len[..j], i)
    ensures len[j] as int != i ==> Listed(len, p, i, j + 1)
    ensures CountOf(len[..j + 1], i) == CountOf(len[..j], i) + if len[j] as int == i then 1 else 0
  {
    PlaceRange(len, j);
    PlacesApart(len, j);
    CountStep(len, j, i);
  }

  lemma ListedRound(len: seq<byte>, p: seq<int>, i: int)
    requires |p| == |len|
    ensures Listed(len, p, i, |len|) ==> Listed(len, p, i + 1, 0)
    ensures (forall s :: 0 <= s < |len| ==> len[s] as int < i) && Listed(len, p, i, 0) ==> p == TVector(len)
    ensures CountOf(len[..0], i) == 0 && CountOf(len[..|len|], i) == CountOf(len, i)
    ensures CountBelow(len, i) + CountOf(len, i) == CountBelow(len, i + 1)
  {
    assert len[..0] == [] && len[..|len|] == len;
    CountNext(len, i);
    if (forall s :: 0 <= s < |len| ==> len[s] as int < i) && Listed(len, p, i, 0) {
      ListedByPlace(len, p);
    }
  }

  /** One turn of the outer loop: the symbols of `i` bits. */
  method ListLength(perm: array<int>, length: array<byte>, i: int, pp0: int, alphaSize: int, ghost len: seq<byte>)
      returns (pp: int)
    requires 0 <= alphaSize <= length.Length && alphaSize <= perm.Length && len == length[..alphaSize]
    requires pp0 == CountBelow(len, i) && Listed(len, perm[..alphaSize], i, 0)
    modifies perm
    ensures pp == CountBelow(len, i + 1) && Listed(len, perm[..alphaSize], i + 1, 0)
    ensures perm[alphaSize..] == old(perm[alphaSize..])
  {
    hide CountOf, CountBelow, TVector, Place, Listed;
    pp := pp0;
    ListedRound(len, perm[..alphaSize], i);
    for j := 0 to alphaSize
      invariant pp == CountBelow(len, i) + CountOf(len[..j], i) && Listed(len, perm[..alphaSize], i, j)
      invariant perm[alphaSize..] == old(perm[alphaSize..])
    {
      ghost var p := perm[..alphaSize];
      ListedOne(len, p, i, j);
      if length[j] as int == i {
        perm[pp] := j;
        assert perm[..alphaSize] == p[pp := j];
        pp := pp + 1;
      }
    }
    ListedRound(len, perm[..alphaSize], i);
  }

  /** The symbols in order of length, symbols of one length in order. */
  method FillPerm(perm: array<int>, length: array<byte>, minLen: int, maxLen: int, alphaSize: int)
    requires 0 <= alphaSize <= length.Length && alphaSize <= perm.Length && 1 <= minLen <= maxLen
    requires forall s :: 0 <= s < alphaSize ==> minLen <= length[s] <= maxLen
    modifies perm
    ensures perm[..alphaSize] == TVector(length[..alphaSize]) && perm[alphaSize..] == old(perm[alphaSize..])
  {
    ghost var len := length[..alphaSize];
    NoneBelow(len, minLen);
    assert Listed(len, perm[..alphaSize], minLen, 0);
    hide CountOf, CountBelow, TVector, Place, Listed;
    var pp := 0;
    for i := minLen to maxLen + 1
      invariant pp == CountBelow(len, i) && Listed(len, perm[..alphaSize], i, 0)
      invariant perm[alphaSize..] == old(perm[alphaSize..])
    {
      pp := ListLength(perm, length, i, pp, alphaSize, len);
    }
    ListedRound(len, perm[..alphaSize], maxLen + 1);
  }

  lemma PlacesApart(l: seq<byte>, i: nat)
    requires i < |l|
    ensures forall s :: 0 <= s < |l| && s != i ==> Place(l, s) != Place(l, i)
  {
    PlacesIsPerm(l);
    forall s | 0 <= s < |l| && s != i ensures Place(l, s) != Place(l, i) {
      assert Places(l)[s] != Places(l)[i];
    }
  }

  lemma ListedByPlace(l: seq<byte>, t: seq<int>)
    requires |t| == |l| && forall s :: 0 <= s < |l| ==> 0 <= Place(l, s) < |l| && t[Place(l, s)] == s
    ensures t == TVector(l)
  {
    hide TVector;
    forall p | 0 <= p < |l| ensures t[p] == TVector(l)[p] {
      assert Places(l)[TVector(l)[p]] == Place(l, TVector(l)[p]) == p;
    }
  }

  /** base[n] becomes the number of symbols with fewer than `n` bits. */
  method CountLengths(base: array<int>, length: array<byte>, alphaSize: int)
    requires base.Length == BZ_MAX_ALPHA_SIZE && 0 <= alphaSize <= length.Length
    requires forall s :: 0 <= s < alphaSize ==> 1 <= length[s] <= 20
    modifies base
    ensures forall n :: 0 <= n < BZ_MAX_CODE_LEN ==> base[n] == CountBelow(length[..alphaSize], n)
  {
    ghost var len := length[..alphaSize];
    for i := 0 to BZ_MAX_CODE_LEN
      invariant forall n :: 0 <= n < i ==> base[n] == 0
    {
      base[i] := 0;
    }
    assert len[..0] == [];
    for i := 0 to alphaSize
      invariant forall n :: 0 <= n < BZ_MAX_CODE_LEN ==> base[n] == CountOf(len[..i], n - 1)
    {
      forall c | -1 <= c < BZ_MAX_CODE_LEN
        ensures CountOf(len[..i + 1], c) == CountOf(len[..i], c) + if len[i] as int == c then 1 else 0
      {
        CountStep(len, i, c);
      }
      base[length[i] as int + 1] := base[length[i] as int + 1] + 1;
    }
    assert len[..alphaSize] == len;
    hide CountOf, CountBelow;
    CountEnds(len);
    BelowBand(len, -1);
    CountNegative(len);
    for i := 1 to BZ_MAX_CODE_LEN
      invariant forall n :: 0 <= n < i ==> base[n] == CountBelow(len, n)
      invariant forall n :: i <= n < BZ_MAX_CODE_LEN ==> base[n] == CountOf(len, n - 1)
    {
      BelowBand(len, i - 1);
      base[i] := base[i] + base[i - 1];
    }
  }

  lemma {:induction false} CountNegative(l: seq<byte>)
    ensures CountOf(l, -1) == 0
  {
    if l != [] {
      CountNegative(l[..|l| - 1]);
    }
  }

  method ClearLimits(limit: array<int>)
    requires limit.Length == BZ_MAX_ALPHA_SIZE
    modifies limit
    ensures forall n :: 0 <= n < BZ_MAX_CODE_LEN ==> limit[n] == 0
  {
    for i := 0 to BZ_MAX_CODE_LEN
      invariant forall n :: 0 <= n < i ==> limit[n] == 0
    {
      limit[i] := 0;
    }
  }

  /** limit[n] becomes the last code of `n` bits. */
  method SetLimits(limit: array<int>, base: array<int>, minLen: int, maxLen: int, ghost len: seq<byte>)
    requires limit.Length == base.Length == BZ_MAX_ALPHA_SIZE && limit != base && 1 <= minLen <= maxLen <= 20
    requires forall s :: 0 <= s < |len| ==> minLen <= len[s] as int <= maxLen
    requires forall n :: 0 <= n < BZ_MAX_CODE_LEN ==> base[n] == CountBelow(len, n)
    modifies limit
    ensures forall n :: 0 <= n < BZ_MAX_CODE_LEN ==> limit[n] == Limit(len, minLen, maxLen, n)
  {
    hide CountOf, CountBelow, First, Past;
    NoShorterCodes(len, minLen);
    ClearLimits(limit);
    var vec := 0;
    for i := minLen to maxLen + 1
      invariant vec == First(len, i)
      invariant forall n :: 0 <= n < BZ_MAX_CODE_LEN ==> limit[n] == if minLen <= n < i then Past(len, n) - 1 else 0
    {
      BelowBand(len, i);
      PastIs(len, i);
      FirstNext(len, i);
      vec := vec + (base[i + 1] - base[i]);
      limit[i] := vec - 1;
      vec := vec * 2;
    }
  }

  method FillLimits(limit: array<int>, base: array<int>, minLen: int, maxLen: int, ghost len: seq<byte>)
    requires limit.Length == base.Length == BZ_MAX_ALPHA_SIZE && limit != base && 1 <= minLen <= maxLen <= 20
    requires forall s :: 0 <= s < |len| ==> minLen <= len[s] as int <= maxLen
    requires forall n :: 0 <= n < BZ_MAX_CODE_LEN ==> base[n] == CountBelow(len, n)
    modifies limit, base
    ensures forall n :: 0 <= n < BZ_MAX_CODE_LEN ==> limit[n] == Limit(len, minLen, maxLen, n)
    ensures forall n :: 0 <= n < BZ_MAX_CODE_LEN ==> base[n] == BaseOf(len, minLen, maxLen, n)
  {
    hide CountOf, CountBelow, First, Past;
    SetLimits(limit, base, minLen, maxLen, len);
    for i := minLen + 1 to maxLen + 1
      modifies base
      invariant forall n :: 0 <= n < BZ_MAX_CODE_LEN ==>
                  base[n] == if minLen < n < i then First(len, n) - CountBelow(len, n) else CountBelow(len, n)
    {
      PastIs(len, i - 1);
      FirstNext(len, i - 1);
      base[i] := (limit[i - 1] + 1) * 2 - base[i];
    }
  }
}
