/** `fallbackSort`: block sorting by repeated doubling of the compared length, with a bitmap of bucket headers. */
module FallbackSort {
  import opened Base
  import opened Counting
  import opened Rotations
  import opened Rearrange
  import opened FallbackQSort

  /** Bits in the header table: 65537 words of 32. */
  const BH_BITS := 65537 * 32
  const MAX_NBLOCK := 900000

  // ------------------------------------------------------------ the first pass: one byte

  /** Every place holds a row whose first byte is the byte of the band it lies in. */
  ghost predicate Banded(b: seq<byte>, fmap: seq<int>) {
    && IsPerm(fmap, |b|)
    && forall p :: 0 <= p < |b| ==> InBand(b, p, b[fmap[p]])
  }

  lemma PlacedIsBanded(b: seq<byte>, fmap: seq<int>)
    requires |fmap| == |b| && forall i :: 0 <= i < |b| ==> 0 <= BackPlaces(b)[i] < |b| && fmap[BackPlaces(b)[i]] == i
    ensures Banded(b, fmap)
  {
    hide BackPlace, CountBelow;
    BackPlacesPerm(b, 256);
    InverseIsPerm(BackPlaces(b));
    forall p | 0 <= p < |b| ensures fmap[p] == Inverse(BackPlaces(b))[p] && InBand(b, p, b[fmap[p]]) {
      var i := Inverse(BackPlaces(b))[p];
      assert BackPlaces(b)[i] == p;
      BackPlaceRange(b, 256, i);
    }
    assert fmap == Inverse(BackPlaces(b));
  }

  /** Counting pass, cumulation and placement: rows bucketed by first byte, and the first place of every bucket. */
  method RadixPass(eclass8: array<byte>, fmap: array<int>, ftab: array<int>, ftabCopy: array<int>, nblock: nat,
      ghost b: seq<byte>)
    requires 0 < nblock == |b| <= eclass8.Length && nblock <= fmap.Length && b == eclass8[..nblock]
    requires ftab.Length == 257 && ftabCopy.Length == 256 && fmap != ftab && fmap != ftabCopy && ftab != ftabCopy
    modifies fmap, ftab, ftabCopy
    ensures Banded(b, fmap[..nblock])
    ensures forall c :: 0 <= c < 256 ==> ftab[c] == CountBelow(b, c)
    ensures forall c :: 0 <= c < 256 ==> ftabCopy[c] == CountOf(b, c)
  {
    CountBytes(eclass8, ftab, ftabCopy, nblock, b);
    forall c | 0 <= c < 256 ensures ftab[c] == BackCursor(b, 0, c) { BackCursorMoves(b, 0, c); }
    BackPlacesPerm(b, 256);
    hide BackCursor, BackPlace, CountBelow, CountOf;
    for i := 0 to nblock
      modifies ftab, fmap
      invariant forall c :: 0 <= c < 256 ==> ftab[c] == BackCursor(b, i, c)
      invariant forall k :: 0 <= k < i ==> fmap[BackPlaces(b)[k]] == k
    {
      var j := eclass8[i];
      assert j == b[i];
      forall c | 0 <= c < 256 ensures BackCursor(b, i + 1, c) == BackCursor(b, i, c) - if b[i] == c then 1 else 0 {
        BackCursorMoves(b, i, c);
      }
      BackCursorMoves(b, i, j);
      var k := ftab[j] - 1;
      assert k == BackPlaces(b)[i];
      ftab[j] := k;
      fmap[k] := i;
    }
    PlacedIsBanded(b, fmap[..nblock]);
    forall c | 0 <= c < 256 ensures ftab[c] == CountBelow(b, c) { BackCursorMoves(b, 0, c); }
  }

  method CountBytes(eclass8: array<byte>, ftab: array<int>, ftabCopy: array<int>, nblock: nat, ghost b: seq<byte>)
    requires nblock == |b| <= eclass8.Length && b == eclass8[..nblock]
    requires ftab.Length == 257 && ftabCopy.Length == 256 && ftab != ftabCopy
    modifies ftab, ftabCopy
    ensures forall c :: 0 <= c < 256 ==> ftab[c] == CountBelow(b, c + 1)
    ensures forall c :: 0 <= c < 256 ==> ftabCopy[c] == CountOf(b, c)
  {
    for i := 0 to 257
      modifies ftab
      invariant forall c :: 0 <= c < i ==> ftab[c] == 0
    {
      ftab[i] := 0;
    }
    assert b[..0] == [];
    for i := 0 to nblock
      modifies ftab
      invariant forall c :: 0 <= c < 257 ==> ftab[c] == CountOf(b[..i], c)
    {
      ftab[eclass8[i]] := ftab[eclass8[i]] + 1;
      assert b[..i + 1][..i] == b[..i];
    }
    assert b[..nblock] == b;
    hide CountOf, CountBelow;
    for i := 0 to 256
      modifies ftabCopy
      invariant forall c :: 0 <= c < i ==> ftabCopy[c] == ftab[c]
    {
      ftabCopy[i] := ftab[i];
    }
    CountEnds(b);
    CountNext(b, 0);
    for i := 1 to 257
      modifies ftab
      invariant forall c :: 0 <= c < i ==> ftab[c] == CountBelow(b, c + 1)
      invariant forall c :: i <= c < 257 ==> ftab[c] == CountOf(b, c)
    {
      CountNext(b, i);
      ftab[i] := ftab[i] + ftab[i - 1];
    }
  }

  // ------------------------------------------------------------ buckets and headers

  /** The keys of all positions by their first `h` bytes. */
  function Keys(b: seq<byte>, h: nat): (k: seq<int>)
    ensures |k| == |b|
  {
    seq(|b|, j requires 0 <= j < |b| => Key(b, j, h))
  }

  ghost predicate InKeyOrder(key: seq<int>, fmap: seq<int>, upTo: int)
    requires IsPerm(fmap, |key|) && upTo <= |key|
  {
    forall i, j :: 0 <= i <= j < upTo ==> key[fmap[i]] <= key[fmap[j]]
  }

  /** Place `i` opens a bucket: its key differs from the key before it. */
  ghost predicate Opens(key: seq<int>, fmap: seq<int>, i: int)
    requires IsPerm(fmap, |key|) && 0 <= i < |key|
  {
    i == 0 || key[fmap[i - 1]] != key[fmap[i]]
  }

  /** Header bits up to the block's end, and the alternating bits that stop the scans. */
  ghost predicate Sentinels(bh: seq<bool>, n: nat) {
    && |bh| == BH_BITS && n <= MAX_NBLOCK
    && forall i :: 0 <= i < 32 ==> bh[n + 2 * i] && !bh[n + 2 * i + 1]
  }

  /**
   * The loop invariant between doublings: rows in order of their first bytes, headers exactly where the key changes.
   */
  ghost predicate Bucketed(key: seq<int>, fmap: seq<int>, bh: seq<bool>) {
    && IsPerm(fmap, |key|) && InKeyOrder(key, fmap, |key|) && Sentinels(bh, |key|)
    && forall i :: 0 <= i < |key| ==> (bh[i] <==> Opens(key, fmap, i))
  }

  lemma FirstKey(b: seq<byte>, j: int)
    requires 0 <= j < |b|
    ensures Keys(b, 1)[j] == b[j]
  {
    assert Window(b, j, 1) == [b[j]] by { assert Window(b, Next(|b|, j), 0) == []; }
    assert Code([b[j]]) == b[j] by { assert Pow256(0) == 1; }
  }

  /** One of the first `i` byte values has its band start at place `k`. */
  ghost predicate Heads(b: seq<byte>, i: int, k: int) {
    exists c :: 0 <= c < i && CountBelow(b, c) == k
  }

  lemma HeadsNext(b: seq<byte>, i: nat, k: int)
    ensures Heads(b, i + 1, k) <==> Heads(b, i, k) || CountBelow(b, i) == k
    ensures !Heads(b, 0, k)
  {
    hide CountBelow;
  }

  /** The radix pass establishes the invariant for one byte. */
  lemma BandedIsBucketed(b: seq<byte>, fmap: seq<int>, bh: seq<bool>)
    requires Banded(b, fmap) && Sentinels(bh, |b|)
    requires forall i :: 0 <= i < |b| ==> (bh[i] <==> Heads(b, 256, i))
    ensures Bucketed(Keys(b, 1), fmap, bh)
  {
    hide CountBelow, Sentinels;
    var key := Keys(b, 1);
    forall j | 0 <= j < |b| ensures key[j] == b[j] { FirstKey(b, j); }
    hide Keys;
    forall i, j | 0 <= i <= j < |b| ensures key[fmap[i]] <= key[fmap[j]] {
      BandOrder(b, i, b[fmap[i]], j, b[fmap[j]]);
    }
    forall i | 0 <= i < |b| ensures Heads(b, 256, i) <==> Opens(key, fmap, i) {
      HeaderAtBand(b, fmap, i);
    }
  }

  lemma HeaderAtBand(b: seq<byte>, fmap: seq<int>, i: int)
    requires Banded(b, fmap) && 0 <= i < |b|
    ensures Heads(b, 256, i) <==> i == 0 || b[fmap[i - 1]] != b[fmap[i]]
  {
    if i == 0 || b[fmap[i - 1]] != b[fmap[i]] {
      BandStart(b, fmap, i);
    } else if c :| 0 <= c < 256 && CountBelow(b, c) == i {
      BandInside(b, fmap, i, c);
    }
  }

  lemma BandStart(b: seq<byte>, fmap: seq<int>, i: int)
    requires Banded(b, fmap) && 0 <= i < |b| && (i == 0 || b[fmap[i - 1]] != b[fmap[i]])
    ensures CountBelow(b, b[fmap[i]]) == i
  {
    hide CountBelow;
    if i > 0 {
      BandOrder(b, i - 1, b[fmap[i - 1]], i, b[fmap[i]]);
      CountMonotone(b, b[fmap[i - 1]] as int + 1, b[fmap[i]]);
    }
  }

  lemma BandInside(b: seq<byte>, fmap: seq<int>, i: int, c: int)
    requires Banded(b, fmap) && 0 < i < |b| && b[fmap[i - 1]] == b[fmap[i]]
    ensures CountBelow(b, c) != i
  {
    hide CountBelow;
    var d := b[fmap[i]];
    assert InBand(b, i - 1, d) && InBand(b, i, d);
    if c <= d { CountMonotone(b, c, d); } else { CountMonotone(b, d as int + 1, c); }
  }

  // ------------------------------------------------------------ relabelling

  /** The header at or before place `i`. */
  ghost function Start(key: seq<int>, fmap: seq<int>, i: int): (s: int)
    requires IsPerm(fmap, |key|) && 0 <= i < |key|
    ensures 0 <= s <= i
    decreases i
  {
    if Opens(key, fmap, i) then i else Start(key, fmap, i - 1)
  }

  lemma {:induction false} StartSameKey(key: seq<int>, fmap: seq<int>, i: int)
    requires IsPerm(fmap, |key|) && 0 <= i < |key|
    ensures key[fmap[Start(key, fmap, i)]] == key[fmap[i]]
    decreases i
  {
    if !Opens(key, fmap, i) {
      StartSameKey(key, fmap, i - 1);
    }
  }

  lemma {:induction false} SameKeySameStart(key: seq<int>, fmap: seq<int>, i: int, j: int)
    requires IsPerm(fmap, |key|) && InKeyOrder(key, fmap, |key|) && 0 <= i <= j < |key|
    ensures Start(key, fmap, i) <= Start(key, fmap, j)
    ensures key[fmap[i]] == key[fmap[j]] ==> Start(key, fmap, i) == Start(key, fmap, j)
    decreases j
  {
    if i < j {
      assert key[fmap[i]] <= key[fmap[j - 1]] <= key[fmap[j]];
      SameKeySameStart(key, fmap, i, j - 1);
    }
  }

  /** Bucket headers compare as the keys of their buckets do. */
  lemma StartOrder(key: seq<int>, fmap: seq<int>, i: int, j: int)
    requires IsPerm(fmap, |key|) && InKeyOrder(key, fmap, |key|) && 0 <= i < |key| && 0 <= j < |key|
    ensures Start(key, fmap, i) <= Start(key, fmap, j) <==> key[fmap[i]] <= key[fmap[j]]
  {
    StartSameKey(key, fmap, i);
    StartSameKey(key, fmap, j);
    if i <= j {
      SameKeySameStart(key, fmap, i, j);
    } else {
      SameKeySameStart(key, fmap, j, i);
    }
  }

  /** `x` moved `h` places on round the block. */
  function Shift(n: nat, x: int, h: int): (y: int)
    requires 0 <= x < n && 0 <= h <= n
    ensures 0 <= y < n
  {
    if x + h < n then x + h else x + h - n
  }

  function Back(n: nat, x: int, h: int): (y: int)
    requires 0 <= x < n && 0 <= h <= n
    ensures 0 <= y < n && Shift(n, y, h) == x
  {
    if x - h < 0 then x - h + n else x - h
  }

  /** Labels compare as the keys of the positions `h` bytes further on. */
  ghost predicate Labelled(eclass: seq<int>, key: seq<int>, h: int, x: int, y: int)
    requires |eclass| == |key| && 0 <= h <= |key| && 0 <= x < |key| && 0 <= y < |key|
  {
    eclass[x] <= eclass[y] <==> key[Shift(|key|, x, h)] <= key[Shift(|key|, y, h)]
  }

  ghost predicate Labels(eclass: seq<int>, key: seq<int>, h: int) {
    && |eclass| == |key| && 0 <= h <= |key|
    && (forall x :: 0 <= x < |key| ==> 0 <= eclass[x] < |key|)
    && (forall x, y :: 0 <= x < |key| && 0 <= y < |key| ==> Labelled(eclass, key, h, x, y))
  }

  lemma StartsLabel(eclass: seq<int>, key: seq<int>, fmap: seq<int>, h: int)
    requires IsPerm(fmap, |key|) && InKeyOrder(key, fmap, |key|) && |eclass| == |key| && 0 <= h <= |key|
    requires forall i :: 0 <= i < |key| ==> eclass[Back(|key|, fmap[i], h)] == Start(key, fmap, i)
    ensures Labels(eclass, key, h)
  {
    hide Start, InKeyOrder;
    var n := |key|;
    forall x | 0 <= x < n ensures 0 <= eclass[x] < n {
      var i := PlaceOf(fmap, n, Shift(n, x, h));
      assert Back(n, fmap[i], h) == x;
    }
    forall x, y | 0 <= x < n && 0 <= y < n ensures Labelled(eclass, key, h, x, y) {
      var i := PlaceOf(fmap, n, Shift(n, x, h));
      var j := PlaceOf(fmap, n, Shift(n, y, h));
      assert Back(n, fmap[i], h) == x && Back(n, fmap[j], h) == y;
      StartOrder(key, fmap, i, j);
    }
  }

  lemma PlaceOf(p: seq<int>, n: nat, v: int) returns (i: int)
    requires IsPerm(p, n) && 0 <= v < n
    ensures 0 <= i < n && p[i] == v
  {
    PermOnto(p, n, v);
    i :| 0 <= i < n && p[i] == v;
  }

  lemma BucketedParts(key: seq<int>, f: seq<int>, bh: seq<bool>)
    requires Bucketed(key, f, bh)
    ensures IsPerm(f, |key|) && InKeyOrder(key, f, |key|) && |key| <= |bh|
    ensures forall i :: 0 <= i < |key| ==> 0 <= f[i] < |key|
  {
  }

  lemma StartStep(key: seq<int>, f: seq<int>, bh: seq<bool>, i: int)
    requires Bucketed(key, f, bh) && IsPerm(f, |key|) && 0 <= i < |key| <= |bh|
    ensures !bh[i] ==> i > 0
    ensures Start(key, f, i) == if bh[i] then i else Start(key, f, i - 1)
  {
  }

  /** The positions `h` bytes before the first `i` rotations have their label. */
  ghost predicate Relabelled(e: seq<int>, key: seq<int>, f: seq<int>, h: int, i: int)
    requires IsPerm(f, |key|) && |e| == |key| && 0 <= h <= |key| && 0 <= i <= |key|
  {
    forall p :: 0 <= p < i ==> e[Back(|key|, f[p], h)] == Start(key, f, p)
  }

  lemma RelabelOne(e: seq<int>, key: seq<int>, f: seq<int>, h: int, i: int)
    requires IsPerm(f, |key|) && |e| == |key| && 0 <= h <= |key| && 0 <= i < |key| && Relabelled(e, key, f, h, i)
    ensures Relabelled(e[Back(|key|, f[i], h) := Start(key, f, i)], key, f, h, i + 1)
  {
    hide Start, Back;
    var e' := e[Back(|key|, f[i], h) := Start(key, f, i)];
    forall p | 0 <= p < i + 1 ensures e'[Back(|key|, f[p], h)] == Start(key, f, p) {
      if p < i {
        BackApart(f, |key|, h, p, i);
      }
    }
  }

  lemma BackApart(f: seq<int>, n: nat, h: int, p: int, i: int)
    requires IsPerm(f, n) && 0 <= h <= n && 0 <= p < i < n
    ensures Back(n, f[p], h) != Back(n, f[i], h)
  {
    assert Shift(n, Back(n, f[p], h), h) == f[p] != f[i];
  }

  /** Gives every position the header of the bucket of the rotation `h` bytes further on. */
  method Relabel(fmap: array<int>, eclass: array<int>, bhtab: array<bool>, nblock: nat, h: int, ghost key: seq<int>)
    requires fmap.Length == eclass.Length == nblock == |key| && fmap != eclass && 1 <= h <= nblock
    requires Bucketed(key, fmap[..], bhtab[..])
    modifies eclass
    ensures Labels(eclass[..], key, h)
  {
    var j := 0;
    ghost var f := fmap[..];
    BucketedParts(key, f, bhtab[..]);
    assert Relabelled(eclass[..], key, f, h, 0);
    hide Start, IsPerm, InKeyOrder, Bucketed, Labels, Relabelled;
    for i := 0 to nblock
      modifies eclass
      invariant i > 0 ==> j == Start(key, f, i - 1)
      invariant Relabelled(eclass[..], key, f, h, i)
    {
      StartStep(key, f, bhtab[..], i);
      if bhtab[i] { j := i; }
      var k := fmap[i] - h;
      if k < 0 { k := k + nblock; }
      assert k == Back(nblock, f[i], h);
      ghost var e := eclass[..];
      RelabelOne(e, key, f, h, i);
      eclass[k] := j;
      assert eclass[..] == e[k := j];
    }
    RelabelledAll(eclass[..], key, f, h);
  }

  lemma RelabelledAll(e: seq<int>, key: seq<int>, f: seq<int>, h: int)
    requires IsPerm(f, |key|) && InKeyOrder(key, f, |key|) && |e| == |key| && 0 <= h <= |key|
             && Relabelled(e, key, f, h, |key|)
    ensures Labels(e, key, h)
  {
    hide Start, IsPerm, InKeyOrder, Labels, Back;
    StartsLabel(e, key, f, h);
  }

  // ------------------------------------------------------------ doubling the compared length

  /** Keys of twice the length: the first half decides, then the second. */
  ghost predicate Doubled(key: seq<int>, key2: seq<int>, h: int, x: int, y: int)
    requires |key2| == |key| && 0 <= h <= |key| && 0 <= x < |key| && 0 <= y < |key|
  {
    var (u, v) := (key[Shift(|key|, x, h)], key[Shift(|key|, y, h)]);
    key2[x] <= key2[y] <==> key[x] < key[y] || (key[x] == key[y] && u <= v)
  }

  ghost predicate Doubles(key: seq<int>, key2: seq<int>, h: int) {
    && |key2| == |key| && 0 <= h <= |key|
    && forall x, y :: 0 <= x < |key| && 0 <= y < |key| ==> Doubled(key, key2, h, x, y)
  }

  lemma KeyDoubled(b: seq<byte>, h: nat, x: int)
    requires 0 <= x < |b| && 1 <= h <= |b|
    ensures Key(b, x, 2 * h) == Key(b, x, h) * Pow256(h) + Key(b, Shift(|b|, x, h), h)
    ensures Key(b, x, h) < Pow256(h)
  {
    hide Window, Code;
    WindowSplit(b, x, h, h);
    AdvanceIsShift(|b|, x, h);
    CodeAppend(Window(b, x, h), Window(b, Advance(|b|, x, h), h));
    CodeBound(Window(b, x, h));
  }

  lemma KeysDouble(b: seq<byte>, h: nat)
    requires 1 <= h <= |b|
    ensures Doubles(Keys(b, h), Keys(b, 2 * h), h)
  {
    hide Key;
    forall x, y | 0 <= x < |b| && 0 <= y < |b| ensures Doubled(Keys(b, h), Keys(b, 2 * h), h, x, y) {
      KeyDoubled(b, h, x);
      KeyDoubled(b, h, y);
      KeyDoubled(b, h, Shift(|b|, x, h));
      KeyDoubled(b, h, Shift(|b|, y, h));
      LeadingDigit(Key(b, x, h), Key(b, Shift(|b|, x, h), h), Key(b, y, h), Key(b, Shift(|b|, y, h), h), Pow256(h));
    }
  }

  lemma PrefixOrder(b: seq<byte>, g: nat, h: nat, x: int, y: int)
    requires 0 <= x < |b| && 0 <= y < |b| && g <= h && Key(b, x, h) <= Key(b, y, h)
    ensures Key(b, x, g) <= Key(b, y, g)
  {
    hide Window, Code;
    var p, q := Window(b, Advance(|b|, x, g), h - g), Window(b, Advance(|b|, y, g), h - g);
    WindowSplit(b, x, g, h - g);
    WindowSplit(b, y, g, h - g);
    CodeAppend(Window(b, x, g), p);
    CodeAppend(Window(b, y, g), q);
    CodeBound(p);
    CodeBound(q);
    LeadingDigit(Key(b, x, g), Code(p), Key(b, y, g), Code(q), Pow256(h - g));
  }

  // ------------------------------------------------------------ one round of refinement

  /** Places up to `r` are in order of the doubled keys and their headers say so; the rest is still in the old state. */
  ghost predicate Refining(key: seq<int>, key2: seq<int>, fmap: seq<int>, bh: seq<bool>, r: int) {
    && |key2| == |key| && IsPerm(fmap, |key|) && InKeyOrder(key, fmap, |key|) && Sentinels(bh, |key|)
    && -1 <= r < |key| && InKeyOrder(key2, fmap, r + 1)
    && (forall i :: 0 <= i <= r ==> (bh[i] <==> Opens(key2, fmap, i)))
    && (forall i :: r < i < |key| ==> (bh[i] <==> Opens(key, fmap, i)))
    && (r + 1 < |key| ==> Opens(key, fmap, r + 1))
  }

  lemma RefiningEnds(key: seq<int>, key2: seq<int>, fmap: seq<int>, bh: seq<bool>)
    requires |key| > 0 && |key2| == |key|
    ensures Bucketed(key, fmap, bh) ==> Refining(key, key2, fmap, bh, -1)
    ensures Refining(key, key2, fmap, bh, |key| - 1) ==> Bucketed(key2, fmap, bh)
  {
  }

  /** A smaller old key is a smaller doubled key. */
  lemma SmallerStays(key: seq<int>, key2: seq<int>, h: int, x: int, y: int)
    requires Doubles(key, key2, h) && 0 <= x < |key| && 0 <= y < |key|
    ensures key[x] < key[y] ==> key2[x] < key2[y]
    ensures key2[x] == key2[y] ==> key[x] == key[y]
  {
    assert Doubled(key, key2, h, x, y) && Doubled(key, key2, h, y, x);
  }

  /** A bucket of one row needs no sorting. */
  lemma SkipSingle(key: seq<int>, key2: seq<int>, h: int, fmap: seq<int>, bh: seq<bool>, r: int)
    requires Refining(key, key2, fmap, bh, r) && Doubles(key, key2, h) && r + 1 < |key| && bh[r + 2]
    ensures Refining(key, key2, fmap, bh, r + 1)
  {
    hide Doubles, Sentinels;
    var q := r + 1;
    forall i | 0 <= i < q ensures key2[fmap[i]] < key2[fmap[q]] {
      assert key[fmap[i]] <= key[fmap[q - 1]] <= key[fmap[q]];
      SmallerStays(key, key2, h, fmap[i], fmap[q]);
    }
  }

  lemma {:induction false} SkipSingles(key: seq<int>, key2: seq<int>, h: int, fmap: seq<int>, bh: seq<bool>, r: int,
      l: int)
    requires Refining(key, key2, fmap, bh, r) && Doubles(key, key2, h) && r < l <= |key|
    requires forall i :: r < i <= l ==> bh[i]
    ensures Refining(key, key2, fmap, bh, l - 1)
    decreases l - r
  {
    if r + 1 < l {
      SkipSingle(key, key2, h, fmap, bh, r);
      SkipSingles(key, key2, h, fmap, bh, r + 1, l);
    }
  }

  /** The rows of one bucket share their old key. */
  lemma {:induction false} BucketSameKey(key: seq<int>, fmap: seq<int>, l: int, i: int)
    requires IsPerm(fmap, |key|) && 0 <= l <= i < |key|
    requires forall p :: l < p <= i ==> !Opens(key, fmap, p)
    ensures key[fmap[i]] == key[fmap[l]]
    decreases i
  {
    if l < i {
      assert !Opens(key, fmap, i);
      BucketSameKey(key, fmap, l, i - 1);
    }
  }

  lemma RearrangedPerm(f: seq<int>, g: seq<int>, n: nat, lo: int, hi: int)
    requires Rearranged(f, g, lo, hi) && IsPerm(f, n)
    ensures IsPerm(g, n)
  {
    forall i | 0 <= i < n ensures 0 <= g[i] < n {
      assert g[i] in multiset(f);
    }
    forall i, j | 0 <= i < j < n ensures g[i] != g[j] {
      DistinctOnce(f, g[i]);
      TwiceCounts(g, i, j);
    }
  }

  /** The state of one bucket before it is sorted: places l..r share a key and only l carries a header. */
  ghost predicate Bucket(key: seq<int>, fmap: seq<int>, bh: seq<bool>, l: int, r: int) {
    && IsPerm(fmap, |key|) && 0 <= l <= r < |key| < |bh|
    && bh[l] && (forall p :: l < p <= r ==> !bh[p]) && bh[r + 1]
    && (forall p :: l <= p <= r ==> key[fmap[p]] == key[fmap[l]])
  }

  /** After sorting a bucket by label, the header bits are set where the label changes. */
  ghost predicate Marked(eclass: seq<int>, g: seq<int>, bh: seq<bool>, bh': seq<bool>, l: int, r: int) {
    && Indexes(g, eclass) && 0 <= l <= r < |g| && |bh'| == |bh| && r < |bh|
    && (forall p :: 0 <= p < |bh| && !(l < p <= r) ==> bh'[p] == bh[p])
    && (forall p :: l < p <= r ==> (bh'[p] <==> eclass[g[p - 1]] != eclass[g[p]]))
  }

  lemma BucketSorted(key: seq<int>, key2: seq<int>, h: int, eclass: seq<int>, f: seq<int>, g: seq<int>, bh: seq<bool>,
      l: int, r: int)
    requires Labels(eclass, key, h) && Doubles(key, key2, h) && Bucket(key, f, bh, l, r)
    requires Rearranged(f, g, l, r) && Indexes(g, eclass) && SortedBy(g, eclass, l, r)
    ensures IsPerm(g, |key|)
    ensures forall p :: l <= p <= r ==> key[g[p]] == key[f[l]]
    ensures forall i, j :: l <= i <= j <= r ==> key2[g[i]] <= key2[g[j]]
    ensures forall i, j :: l <= i <= j <= r ==> (eclass[g[i]] == eclass[g[j]] <==> key2[g[i]] == key2[g[j]])
  {
    RearrangedPerm(f, g, |key|, l, r);
    hide Rearranged, Labelled, Doubled, SortedBy;
    forall p | l <= p <= r ensures key[g[p]] == key[f[l]] {
      var from := CameFrom(f, g, l, r, p);
    }
    forall i, j | l <= i <= j <= r
      ensures key2[g[i]] <= key2[g[j]] && (eclass[g[i]] == eclass[g[j]] <==> key2[g[i]] == key2[g[j]])
    {
      SortedAt(g, eclass, l, r, i, j);
      LabelsDecide(key, key2, h, eclass, g[i], g[j]);
    }
  }

  lemma SortedAt(f: seq<int>, e: seq<int>, lo: int, hi: int, i: int, j: int)
    requires Indexes(f, e) && 0 <= lo <= i <= j <= hi < |f| && SortedBy(f, e, lo, hi)
    ensures e[f[i]] <= e[f[j]]
  {
    assert KeyAt(f, e, i) <= KeyAt(f, e, j);
  }

  /** Between positions with one old key, labels order exactly as the doubled keys. */
  lemma LabelsDecide(key: seq<int>, key2: seq<int>, h: int, eclass: seq<int>, x: int, y: int)
    requires Labels(eclass, key, h) && Doubles(key, key2, h) && 0 <= x < |key| && 0 <= y < |key| && key[x] == key[y]
    ensures eclass[x] <= eclass[y] <==> key2[x] <= key2[y]
    ensures eclass[x] == eclass[y] <==> key2[x] == key2[y]
  {
    assert Labelled(eclass, key, h, x, y) && Labelled(eclass, key, h, y, x);
    assert Doubled(key, key2, h, x, y) && Doubled(key, key2, h, y, x);
  }

  /** Sorting one bucket and marking it extends the refined part past it. */
  lemma BucketDone(key: seq<int>, key2: seq<int>, h: int, eclass: seq<int>, f: seq<int>, g: seq<int>,
                   bh: seq<bool>, bh': seq<bool>, l: int, r: int)
    requires Refining(key, key2, f, bh, l - 1) && Bucket(key, f, bh, l, r)
    requires Labels(eclass, key, h) && Doubles(key, key2, h)
    requires Rearranged(f, g, l, r) && Indexes(g, eclass) && SortedBy(g, eclass, l, r)
             && Marked(eclass, g, bh, bh', l, r)
    ensures Refining(key, key2, g, bh', r)
  {
    BucketSorted(key, key2, h, eclass, f, g, bh, l, r);
    SameLength(f, g, l, r);
    assert forall p :: 0 <= p < |key| && !(l <= p <= r) ==> g[p] == f[p];
    hide Rearranged, SortedBy, Labels, Doubles;
    var n := |key|;
    assert forall p :: 0 <= p < n ==> key[g[p]] == key[f[p]];
    forall i | 0 <= i < l ensures key[f[i]] < key[f[l]] {
      assert key[f[i]] <= key[f[l - 1]] <= key[f[l]] && Opens(key, f, l);
    }
    forall i, j | 0 <= i <= j < r + 1 ensures key2[g[i]] <= key2[g[j]] {
      if i < l <= j {
        SmallerStays(key, key2, h, g[i], g[j]);
      }
    }
    if l > 0 {
      SmallerStays(key, key2, h, g[l - 1], g[l]);
    }
    HeadersExtend(key, key2, eclass, f, g, bh, bh', l, r);
  }

  lemma HeadersExtend(key: seq<int>, key2: seq<int>, eclass: seq<int>, f: seq<int>, g: seq<int>,
                      bh: seq<bool>, bh': seq<bool>, l: int, r: int)
    requires Refining(key, key2, f, bh, l - 1) && Bucket(key, f, bh, l, r) && Marked(eclass, g, bh, bh', l, r)
    requires IsPerm(g, |key|) && InKeyOrder(key2, g, r + 1) && (l > 0 ==> key2[g[l - 1]] != key2[g[l]])
    requires forall p :: 0 <= p < |key| ==> key[g[p]] == key[f[p]]
    requires forall p :: 0 <= p < l ==> g[p] == f[p]
    requires forall i, j :: l <= i <= j <= r ==> (eclass[g[i]] == eclass[g[j]] <==> key2[g[i]] == key2[g[j]])
    ensures Refining(key, key2, g, bh', r)
  {
    assert r + 1 < |key| ==> Opens(key, f, r + 1);
    assert forall i :: 0 <= i < l ==> Opens(key2, g, i) == Opens(key2, f, i);
    assert forall i :: r < i < |key| ==> Opens(key, g, i) == Opens(key, f, i);
  }

  // ------------------------------------------------------------ scanning the header bits

  /** The 32 header bits of the word that holds bit `k` are all `v`: WORD_BH against 0xffffffff or 0. */
  predicate WordIs(bhtab: array<bool>, k: int, v: bool)
    reads bhtab
    requires bhtab.Length == BH_BITS && 0 <= k < BH_BITS
  {
    forall i :: k / 32 * 32 <= i < k / 32 * 32 + 32 ==> bhtab[i] == v
  }

  /** The first bit from `k0` on that differs from `v`: bit by bit to a word boundary, then by whole words. */
  method FindOther(bhtab: array<bool>, k0: int, v: bool, ghost stop: int) returns (k: int)
    requires bhtab.Length == BH_BITS && 0 <= k0 <= stop < BH_BITS && bhtab[stop] == !v
    ensures k0 <= k <= stop && bhtab[k] == !v
    ensures forall i :: k0 <= i < k ==> bhtab[i] == v
  {
    k := k0;
    while bhtab[k] == v && k % 32 != 0
      invariant k0 <= k <= stop && forall i :: k0 <= i < k ==> bhtab[i] == v
      decreases stop - k
    {
      k := k + 1;
    }
    if bhtab[k] == v {
      while WordIs(bhtab, k, v)
        invariant k0 <= k <= stop && k % 32 == 0 && forall i :: k0 <= i < k ==> bhtab[i] == v
        decreases stop - k
      {
        assert k / 32 * 32 == k;
        assert !(k <= stop < k + 32);
        k := k + 32;
      }
      while bhtab[k] == v
        invariant k0 <= k <= stop && forall i :: k0 <= i < k ==> bhtab[i] == v
        decreases stop - k
      {
        k := k + 1;
      }
    }
  }

  /** Sets a header bit wherever the label changes inside the sorted bucket. */
  method MarkBucket(fmap: array<int>, eclass: array<int>, bhtab: array<bool>, l: int, r: int)
    requires Indexes(fmap[..], eclass[..]) && 0 <= l <= r < fmap.Length && r < bhtab.Length
    requires forall k :: 0 <= k < eclass.Length ==> eclass[k] >= 0
    requires bhtab[l] && forall p :: l < p <= r ==> !bhtab[p]
    modifies bhtab
    ensures Marked(eclass[..], fmap[..], old(bhtab[..]), bhtab[..], l, r)
  {
    var cc := -1;
    for i := l to r + 1
      invariant i > l ==> cc == eclass[fmap[i - 1]]
      invariant i == l ==> cc == -1
      invariant forall p :: 0 <= p < bhtab.Length && !(l < p < i) ==> bhtab[p] == old(bhtab[p])
      invariant forall p :: l < p < i ==> (bhtab[p] <==> eclass[fmap[p - 1]] != eclass[fmap[p]])
    {
      var cc1 := eclass[fmap[i]];
      if cc != cc1 {
        bhtab[i] := true;
        cc := cc1;
      }
    }
  }

  lemma BucketFound(key: seq<int>, key2: seq<int>, h: int, f: seq<int>, bh: seq<bool>, r0: int, l: int, r: int)
    requires Refining(key, key2, f, bh, r0) && Doubles(key, key2, h) && r0 < l < |key| && l <= r
    requires forall p :: r0 < p <= l ==> bh[p]
    requires r + 1 <= |key| && (forall p :: l < p <= r ==> !bh[p]) && bh[r + 1]
    ensures Refining(key, key2, f, bh, l - 1) && Bucket(key, f, bh, l, r)
  {
    SkipSingles(key, key2, h, f, bh, r0, l);
    forall p | l <= p <= r ensures key[f[p]] == key[f[l]] {
      BucketSameKey(key, f, l, p);
    }
  }

  lemma StopBits(key: seq<int>, key2: seq<int>, f: seq<int>, bh: seq<bool>, r: int)
    requires Refining(key, key2, f, bh, r)
    ensures |bh| == BH_BITS && |f| == |key| <= MAX_NBLOCK && -1 <= r < |key|
    ensures bh[|key|] && !bh[|key| + 1] && (bh[r + 1] || r + 1 < |key|)
    ensures bh[r + 1]
  {
    assert bh[|key| + 2 * 0] && !bh[|key| + 2 * 0 + 1];
  }

  lemma LabelsRange(eclass: seq<int>, key: seq<int>, h: int, f: seq<int>)
    requires Labels(eclass, key, h) && IsPerm(f, |key|)
    ensures Indexes(f, eclass) && forall k :: 0 <= k < |eclass| ==> eclass[k] >= 0
  {
  }

  lemma RefiningPerm(key: seq<int>, key2: seq<int>, f: seq<int>, bh: seq<bool>, r: int)
    requires Refining(key, key2, f, bh, r)
    ensures IsPerm(f, |key|) && Sentinels(bh, |key|)
  {
  }

  lemma BucketBits(key: seq<int>, f: seq<int>, bh: seq<bool>, l: int, r: int)
    requires Bucket(key, f, bh, l, r)
    ensures 0 <= l <= r < |key| == |f| && r < |bh| && bh[l] && forall p :: l < p <= r ==> !bh[p]
  {
  }

  /** Sorts and marks one bucket. */
  method SortBucket(fmap: array<int>, eclass: array<int>, bhtab: array<bool>, l: int, r: int,
                    ghost key: seq<int>, ghost key2: seq<int>, ghost h: int)
    requires fmap.Length == eclass.Length == |key| && fmap != eclass
    requires Labels(eclass[..], key, h) && Doubles(key, key2, h)
    requires Refining(key, key2, fmap[..], bhtab[..], l - 1) && Bucket(key, fmap[..], bhtab[..], l, r)
    modifies fmap, bhtab
    ensures Refining(key, key2, fmap[..], bhtab[..], r)
  {
    ghost var f, bh, e := fmap[..], bhtab[..], eclass[..];
    StopBits(key, key2, f, bh, l - 1);
    RefiningPerm(key, key2, f, bh, l - 1);
    BucketBits(key, f, bh, l, r);
    LabelsRange(e, key, h, f);
    hide Refining, Labels, Doubles, Bucket, Marked, Rearranged, SortedBy, Indexes, IsPerm, Sentinels;
    FallbackQSort3(fmap, eclass, l, r);
    ghost var g := fmap[..];
    RearrangedPerm(f, g, |key|, l, r);
    LabelsRange(e, key, h, g);
    MarkBucket(fmap, eclass, bhtab, l, r);
    BucketDone(key, key2, h, e, f, g, bh, bhtab[..], l, r);
  }

  /** Finds the next bucket of two rows or more; the buckets of one row passed over need no work. */
  method NextBucket(bhtab: array<bool>, nblock: nat, r0: int,
                    ghost f: seq<int>, ghost key: seq<int>, ghost key2: seq<int>, ghost h: int)
    returns (found: bool, l: int, r: int)
    requires nblock == |key| && Refining(key, key2, f, bhtab[..], r0) && Doubles(key, key2, h)
    ensures found ==> r0 < l < r < nblock && Refining(key, key2, f, bhtab[..], l - 1) && Bucket(key, f, bhtab[..], l, r)
    ensures !found ==> Refining(key, key2, f, bhtab[..], nblock - 1)
    ensures !found ==> forall i :: r0 < i < nblock ==> bhtab[i]
  {
    ghost var bh := bhtab[..];
    StopBits(key, key2, f, bh, r0);
    hide Refining, Doubles, Bucket;
    var k := FindOther(bhtab, r0 + 1, true, nblock + 1);
    found, l, r := false, k - 1, nblock;
    if l >= nblock {
      SkipSingles(key, key2, h, f, bh, r0, nblock);
      return;
    }
    k := FindOther(bhtab, k, false, nblock);
    r := k - 1;
    if r >= nblock { assert false; }
    BucketFound(key, key2, h, f, bh, r0, l, r);
    found := true;
  }

  /** One pass over the buckets: every bucket of two rows or more is sorted by label and marked. */
  method RefineBuckets(fmap: array<int>, eclass: array<int>, bhtab: array<bool>, nblock: nat,
                       ghost key: seq<int>, ghost key2: seq<int>, ghost h: int) returns (nNotDone: int)
    requires fmap.Length == eclass.Length == nblock == |key| && fmap != eclass && nblock > 0
    requires Bucketed(key, fmap[..], bhtab[..]) && Labels(eclass[..], key, h) && Doubles(key, key2, h)
    modifies fmap, bhtab
    ensures Bucketed(key2, fmap[..], bhtab[..])
    ensures nNotDone == 0 ==> forall i :: 0 <= i < nblock ==> bhtab[i]
  {
    nNotDone := 0;
    var r := -1;
    RefiningEnds(key, key2, fmap[..], bhtab[..]);
    StopBits(key, key2, fmap[..], bhtab[..], r);
    hide Bucketed, Refining, Labels, Doubles, Bucket;
    while true
      invariant -1 <= r < nblock && Refining(key, key2, fmap[..], bhtab[..], r)
      invariant nNotDone >= 0 && (nNotDone == 0 ==> forall i :: 0 <= i <= r ==> bhtab[i])
      decreases nblock - r
    {
      var found, l, next := NextBucket(bhtab, nblock, r, fmap[..], key, key2, h);
      if !found { break; }
      r := next;
      nNotDone := nNotDone + (r - l + 1);
      SortBucket(fmap, eclass, bhtab, l, r, key, key2, h);
    }
    RefiningEnds(key, key2, fmap[..], bhtab[..]);
  }

  // ------------------------------------------------------------ the whole sort

  /** How many places from `i` on lie in the band of byte `c`. */
  ghost function Left(b: seq<byte>, i: int, c: int): int {
    CountBelow(b, c + 1) - Max(CountBelow(b, c), Min(i, CountBelow(b, c + 1)))
  }

  lemma LeftAtBand(b: seq<byte>, i: int, d: int, c: int)
    requires InBand(b, i, d)
    ensures Left(b, i + 1, c) == Left(b, i, c) - if c == d then 1 else 0
    ensures c < d ==> Left(b, i, c) == 0
    ensures c == d ==> Left(b, i, c) > 0
  {
    hide CountBelow;
    CountMonotone(b, c, c + 1);
    if c < d { CountMonotone(b, c + 1, d); } else if d < c { CountMonotone(b, d + 1, c); }
  }

  lemma BandedAt(b: seq<byte>, f: seq<int>, i: int)
    requires Banded(b, f) && 0 <= i < |b|
    ensures |f| == |b| && 0 <= f[i] < |b| && InBand(b, i, b[f[i]])
    ensures i + 1 < |b| ==> 0 <= f[i + 1] < |b| && b[f[i]] <= b[f[i + 1]]
    ensures forall p :: 0 <= p < i ==> 0 <= f[p] < |b| && f[p] != f[i]
  {
    if i + 1 < |b| {
      BandOrder(b, i, b[f[i]], i + 1, b[f[i + 1]]);
    }
  }

  lemma BandedCovers(b: seq<byte>, f: seq<int>, e: seq<byte>)
    requires Banded(b, f) && |e| == |b| && forall p :: 0 <= p < |b| ==> e[f[p]] == b[f[p]]
    ensures e == b
  {
    forall x | 0 <= x < |b| ensures e[x] == b[x] {
      var p := PlaceOf(f, |b|, x);
    }
  }

  /** The byte values in sorted order are dealt back to the positions they came from. */
  method RebuildBlock(fmap: array<int>, ftabCopy: array<int>, eclass8: array<byte>, nblock: nat, ghost b: seq<byte>)
    requires fmap.Length == eclass8.Length == nblock == |b| && ftabCopy.Length == 256 && fmap != ftabCopy
    requires Banded(b, fmap[..]) && forall c :: 0 <= c < 256 ==> ftabCopy[c] == CountOf(b, c)
    modifies ftabCopy, eclass8
    ensures eclass8[..] == b
  {
    ghost var f := fmap[..];
    forall c | 0 <= c < 256 ensures ftabCopy[c] == Left(b, 0, c) { CountNext(b, c); }
    hide CountBelow, CountOf, Left, Banded;
    var j := 0;
    if nblock > 0 { BandedAt(b, f, 0); }
    for i := 0 to nblock
      modifies ftabCopy, eclass8
      invariant 0 <= j <= 255
      invariant i < nblock ==> 0 <= f[i] < nblock && j <= b[f[i]]
      invariant forall c :: 0 <= c < 256 ==> ftabCopy[c] == Left(b, i, c)
      invariant forall p :: 0 <= p < i ==> 0 <= f[p] < nblock && eclass8[f[p]] == b[f[p]]
    {
      BandedAt(b, f, i);
      ghost var d := b[f[i]];
      forall c | 0 <= c < 256
        ensures Left(b, i + 1, c) == Left(b, i, c) - if c == d then 1 else 0
        ensures c < d ==> Left(b, i, c) == 0
        ensures c == d ==> Left(b, i, c) > 0
      {
        LeftAtBand(b, i, d, c);
      }
      while ftabCopy[j] == 0
        invariant 0 <= j <= d
        decreases 256 - j
      {
        j := j + 1;
      }
      ftabCopy[j] := ftabCopy[j] - 1;
      eclass8[fmap[i]] := j;
    }
    BandedCovers(b, f, eclass8[..]);
  }

  lemma SortedIsBanded(b: seq<byte>, f0: seq<int>, f: seq<int>, h: nat)
    requires Banded(b, f0) && IsPerm(f, |b|) && InKeyOrder(Keys(b, h), f, |b|) && h >= 1
    ensures Banded(b, f)
  {
    hide Key;
    forall i, j | 0 <= i <= j < |b| ensures b[f[i]] <= b[f[j]] {
      assert Keys(b, h)[f[i]] <= Keys(b, h)[f[j]];
      PrefixOrder(b, 1, h, f[i], f[j]);
      FirstKey(b, f[i]);
      FirstKey(b, f[j]);
    }
    forall i, j | 0 <= i <= j < |b| ensures b[f0[i]] <= b[f0[j]] {
      BandOrder(b, i, b[f0[i]], j, b[f0[j]]);
    }
    forall p | 0 <= p < |b| ensures InBand(b, p, b[f[p]]) {
      SortedKeysAgree(b, f0, f, p);
    }
  }

  /** Order by a long prefix, or a strict order by any prefix, is the order of the rotations. */
  lemma EnoughBytes(b: seq<byte>, f: seq<int>, bh: seq<bool>, h: nat)
    requires 1 <= |b| && Bucketed(Keys(b, 2 * h), f, bh) && 1 <= h
    requires |b| < 2 * h || forall i :: 0 <= i < |b| ==> bh[i]
    ensures SortsRotations(b, f)
  {
    hide Key;
    var n := |b|;
    forall i, j | 0 <= i <= j < n ensures Key(b, f[i], n) <= Key(b, f[j], n) {
      assert Keys(b, 2 * h)[f[i]] <= Keys(b, 2 * h)[f[j]];
      if n < 2 * h {
        PrefixOrder(b, n, 2 * h, f[i], f[j]);
      } else if i < j {
        assert Keys(b, 2 * h)[f[i]] <= Keys(b, 2 * h)[f[j - 1]] <= Keys(b, 2 * h)[f[j]];
        assert Opens(Keys(b, 2 * h), f, j);
        if Key(b, f[j], n) <= Key(b, f[i], n) {
          PrefixOrder(b, 2 * h, n, f[j], f[i]);
        }
      }
    }
    SortedByKey(b, f);
  }

  method MarkBands(bhtab: array<bool>, ftab: array<int>, nblock: nat, ghost b: seq<byte>)
    requires bhtab.Length == BH_BITS && ftab.Length == 257 && 0 < nblock == |b| <= MAX_NBLOCK
    requires forall c :: 0 <= c < 256 ==> ftab[c] == CountBelow(b, c)
    modifies bhtab
    ensures Sentinels(bhtab[..], nblock)
    ensures forall i :: 0 <= i < nblock ==> (bhtab[i] <==> Heads(b, 256, i))
  {
    hide CountBelow;
    var nBhtab := 2 + nblock / 32;
    for i := 0 to 32 * nBhtab
      invariant forall k :: 0 <= k < i ==> !bhtab[k]
    {
      bhtab[i] := false;
    }
    for i := 0 to 256
      invariant forall k :: 0 <= k < nblock ==> (bhtab[k] <==> Heads(b, i, k))
    {
      forall k | 0 <= k < nblock ensures Heads(b, i + 1, k) <==> Heads(b, i, k) || CountBelow(b, i) == k {
        HeadsNext(b, i, k);
      }
      bhtab[ftab[i]] := true;
    }
    ghost var bands := bhtab[..];
    for i := 0 to 32
      invariant forall k :: 0 <= k < nblock ==> bhtab[k] == bands[k]
      invariant forall k :: 0 <= k < i ==> bhtab[nblock + 2 * k] && !bhtab[nblock + 2 * k + 1]
    {
      bhtab[nblock + 2 * i] := true;
      bhtab[nblock + 2 * i + 1] := false;
    }
  }

  lemma Finished(b: seq<byte>, f0: seq<int>, f: seq<int>, bh: seq<bool>, h: nat)
    requires 1 <= |b| && Banded(b, f0) && Bucketed(Keys(b, 2 * h), f, bh) && 1 <= h
    requires |b| < 2 * h || forall i :: 0 <= i < |b| ==> bh[i]
    ensures SortsRotations(b, f) && Banded(b, f)
  {
    EnoughBytes(b, f, bh, h);
    hide Keys, SortsRotations, Banded;
    SortedIsBanded(b, f0, f, 2 * h);
  }

  /**
   * `fallbackSort`: for every non-empty block, `fmap` ends up listing the rotations in nondecreasing order and
   * the block's bytes are rebuilt from the order alone. The loop runs at most log2(nblock) + 1 times.
   */
  method FallbackSort(fmap: array<int>, eclass: array<int>, eclass8: array<byte>, bhtab: array<bool>, nblock: nat)
    requires 0 < nblock <= MAX_NBLOCK && fmap.Length == eclass.Length == eclass8.Length == nblock
    requires fmap != eclass && bhtab.Length == BH_BITS
    modifies fmap, eclass, eclass8, bhtab
    ensures SortsRotations(old(eclass8[..]), fmap[..])
    ensures eclass8[..] == old(eclass8[..])
  {
    assert nblock < BH_BITS;
    hide *;
    ghost var b := eclass8[..];
    var ftab, ftabCopy := new int[257], new int[256];
    assert eclass8[..nblock] == b;
    RadixPass(eclass8, fmap, ftab, ftabCopy, nblock, b);
    assert fmap[..nblock] == fmap[..];
    ghost var f0 := fmap[..];
    MarkBands(bhtab, ftab, nblock, b);
    BandedIsBucketed(b, fmap[..], bhtab[..]);
    var h := 1;
    while true
      modifies fmap, eclass, bhtab
      invariant 1 <= h <= nblock && Bucketed(Keys(b, h), fmap[..], bhtab[..])
      decreases nblock - h
    {
      Relabel(fmap, eclass, bhtab, nblock, h, Keys(b, h));
      KeysDouble(b, h);
      ghost var half := h;
      var nNotDone := RefineBuckets(fmap, eclass, bhtab, nblock, Keys(b, h), Keys(b, 2 * h), h);
      h := h * 2;
      if h > nblock || nNotDone == 0 {
        Finished(b, f0, fmap[..], bhtab[..], half);
        break;
      }
    }
    RebuildBlock(fmap, ftabCopy, eclass8, nblock, b);
  }
}
