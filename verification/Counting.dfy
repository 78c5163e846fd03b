/** Counting keys: the tables that bucket sorts and the inverse transform are built on. */
module Counting {
  import opened Base

  /** How many keys of `l` are below `c`. */
  function CountBelow(l: seq<int>, c: int): (k: nat)
    ensures k <= |l|
  {
    if l == [] then 0 else CountBelow(l[..|l| - 1], c) + if l[|l| - 1] < c then 1 else 0
  }

  /** How many keys of `l` are `c`. */
  function CountOf(l: seq<int>, c: int): (k: nat)
    ensures k <= |l|
  {
    if l == [] then 0 else CountOf(l[..|l| - 1], c) + if l[|l| - 1] == c then 1 else 0
  }

  lemma {:induction false} CountNext(l: seq<int>, c: int)
    ensures CountBelow(l, c + 1) == CountBelow(l, c) + CountOf(l, c)
  {
    if l != [] {
      CountNext(l[..|l| - 1], c);
    }
  }

  lemma {:induction false} CountMonotone(l: seq<int>, c: int, d: int)
    requires c <= d
    ensures CountBelow(l, c) <= CountBelow(l, d)
    decreases d - c
  {
    if c < d {
      CountNext(l, c);
      CountMonotone(l, c + 1, d);
    }
  }

  lemma {:induction false} CountAll(l: seq<int>, m: nat)
    requires forall i :: 0 <= i < |l| ==> 0 <= l[i] < m
    ensures CountBelow(l, 0) == 0 && CountBelow(l, m) == |l|
  {
    if l != [] {
      CountAll(l[..|l| - 1], m);
    }
  }

  lemma CountEnds(l: seq<byte>)
    ensures CountBelow(l, 0) == 0 && CountBelow(l, 256) == |l|
  {
    CountAll(l, 256);
  }

  lemma {:induction false} CountPrefix(l: seq<int>, i: nat, c: int)
    requires i <= |l|
    ensures CountOf(l[..i], c) <= CountOf(l, c)
    ensures i < |l| && l[i] == c ==> CountOf(l[..i], c) < CountOf(l, c)
    decreases |l| - i
  {
    if i < |l| {
      CountPrefix(l, i + 1, c);
      assert l[..i + 1][..i] == l[..i];
    } else {
      assert l[..i] == l;
    }
  }

  /** Sorted place `p` belongs to key `c`. */
  predicate InBand(l: seq<int>, p: int, c: int) {
    CountBelow(l, c) <= p < CountBelow(l, c + 1)
  }

  lemma OneBand(l: seq<int>, p: int, c: int, d: int)
    requires InBand(l, p, c) && InBand(l, p, d)
    ensures c == d
  {
    hide CountBelow;
    if c < d {
      CountMonotone(l, c + 1, d);
    } else if d < c {
      CountMonotone(l, d + 1, c);
    }
  }

  lemma BandOrder(l: seq<int>, p: int, c: int, q: int, d: int)
    requires InBand(l, p, c) && InBand(l, q, d) && p <= q
    ensures c <= d
  {
    hide CountBelow;
    if d < c {
      CountMonotone(l, d + 1, c);
    }
  }

  /** The sorted place of row `i`'s byte when rows with equal bytes keep their order. */
  function Place(l: seq<byte>, i: nat): nat
    requires i < |l|
  {
    CountBelow(l, l[i]) + CountOf(l[..i], l[i])
  }

  lemma PlaceRange(l: seq<byte>, i: nat)
    requires i < |l|
    ensures CountBelow(l, l[i]) <= Place(l, i) < CountBelow(l, l[i] as int + 1) <= |l|
  {
    hide CountBelow, CountOf;
    CountPrefix(l, i, l[i]);
    CountNext(l, l[i]);
    CountMonotone(l, l[i] as int + 1, 256);
    CountEnds(l);
  }

  lemma PlaceOrder(l: seq<byte>, i: nat, j: nat)
    requires i < |l| && j < |l|
    requires l[i] < l[j] || (l[i] == l[j] && i < j)
    ensures Place(l, i) < Place(l, j)
  {
    hide CountBelow, CountOf;
    PlaceRange(l, i);
    PlaceRange(l, j);
    if l[i] < l[j] {
      CountMonotone(l, l[i] as int + 1, l[j]);
    } else {
      CountPrefix(l[..j], i, l[i]);
      assert l[..j][..i] == l[..i];
    }
  }

  /** The place of every row. */
  function Places(l: seq<byte>): (p: seq<int>)
    ensures |p| == |l|
  {
    seq(|l|, i requires 0 <= i < |l| => Place(l, i))
  }

  lemma PlacesIsPerm(l: seq<byte>)
    ensures IsPerm(Places(l), |l|)
  {
    forall i | 0 <= i < |l| ensures Place(l, i) < |l| {
      PlaceRange(l, i);
    }
    forall i, j | 0 <= i < j < |l| ensures Place(l, i) != Place(l, j) {
      if l[i] <= l[j] { PlaceOrder(l, i, j); } else { PlaceOrder(l, j, i); }
    }
  }

  /** The rows in order of their byte, rows with equal bytes in row order: the T vector of the inverse transforms. */
  function TVector(l: seq<byte>): (t: seq<int>)
    ensures |t| == |l| && IsPerm(t, |l|)
    ensures forall p :: 0 <= p < |l| ==> 0 <= t[p] < |l| && Places(l)[t[p]] == p
    ensures forall i :: 0 <= i < |l| ==> 0 <= Places(l)[i] < |l| && t[Places(l)[i]] == i
  {
    PlacesIsPerm(l);
    InverseIsPerm(Places(l));
    Inverse(Places(l))
  }

  /** Where byte `c` goes next once the first `i` rows have been placed. */
  ghost function Cursor(l: seq<byte>, i: nat, c: int): nat
    requires i <= |l|
  {
    CountBelow(l, c) + CountOf(l[..i], c)
  }

  lemma CursorMoves(l: seq<byte>, i: nat, c: int)
    requires i < |l|
    ensures Cursor(l, 0, c) == CountBelow(l, c)
    ensures Cursor(l, i + 1, c) == Cursor(l, i, c) + if l[i] == c then 1 else 0
    ensures Cursor(l, i, l[i]) == Place(l, i) < |l|
    ensures TVector(l)[Place(l, i)] == i
    ensures forall p :: 0 <= p < |l| && TVector(l)[p] == i ==> p == Place(l, i)
  {
    hide TVector;
    PlaceRange(l, i);
    assert Places(l)[i] == Place(l, i);
    assert l[..0] == [];
    assert l[..i + 1][..i] == l[..i];
    forall p | 0 <= p < |l| && TVector(l)[p] == i ensures p == Place(l, i) {
      assert Places(l)[TVector(l)[p]] == p;
    }
  }

  // ------------------------------------------------------------ placing from the end of each band

  /** The place a radix pass gives to row `i` when it fills the band of every key from its end downwards. */
  function BackPlace(l: seq<int>, i: nat): int
    requires i < |l|
  {
    CountBelow(l, l[i] + 1) - 1 - CountOf(l[..i], l[i])
  }

  function BackPlaces(l: seq<int>): (p: seq<int>)
    ensures |p| == |l|
  {
    seq(|l|, i requires 0 <= i < |l| => BackPlace(l, i))
  }

  lemma BackPlaceRange(l: seq<int>, m: nat, i: nat)
    requires i < |l| && forall k :: 0 <= k < |l| ==> 0 <= l[k] < m
    ensures InBand(l, BackPlace(l, i), l[i]) && 0 <= BackPlace(l, i) < |l|
  {
    hide CountBelow, CountOf;
    CountPrefix(l, i, l[i]);
    CountNext(l, l[i]);
    CountMonotone(l, l[i] + 1, m);
    CountAll(l, m);
  }

  lemma BackPlacesDiffer(l: seq<int>, m: nat, i: nat, j: nat)
    requires i < j < |l| && forall k :: 0 <= k < |l| ==> 0 <= l[k] < m
    ensures BackPlace(l, i) != BackPlace(l, j)
  {
    hide CountBelow, CountOf;
    BackPlaceRange(l, m, i);
    BackPlaceRange(l, m, j);
    CountPrefix(l[..j], i, l[i]);
    assert l[..j][..i] == l[..i];
    if BackPlace(l, i) == BackPlace(l, j) {
      OneBand(l, BackPlace(l, i), l[i], l[j]);
    }
  }

  lemma BackPlacesPerm(l: seq<int>, m: nat)
    requires forall k :: 0 <= k < |l| ==> 0 <= l[k] < m
    ensures IsPerm(BackPlaces(l), |l|)
  {
    hide BackPlace;
    forall i | 0 <= i < |l| ensures 0 <= BackPlaces(l)[i] < |l| {
      BackPlaceRange(l, m, i);
    }
    forall i, j | 0 <= i < j < |l| ensures BackPlaces(l)[i] != BackPlaces(l)[j] {
      BackPlacesDiffer(l, m, i, j);
    }
  }

  /** Next free place of key `c` after `i` rows, counted down from the end of its band. */
  ghost function BackCursor(l: seq<int>, i: nat, c: int): int
    requires i <= |l|
  {
    CountBelow(l, c + 1) - CountOf(l[..i], c)
  }

  lemma BackCursorMoves(l: seq<int>, i: nat, c: int)
    requires i < |l|
    ensures BackCursor(l, 0, c) == CountBelow(l, c + 1)
    ensures BackCursor(l, i + 1, c) == BackCursor(l, i, c) - if l[i] == c then 1 else 0
    ensures BackCursor(l, i, l[i]) - 1 == BackPlace(l, i)
    ensures BackCursor(l, |l|, c) == CountBelow(l, c)
  {
    assert l[..0] == [];
    assert l[..i + 1][..i] == l[..i];
    assert l[..|l|] == l;
    CountNext(l, c);
  }
}
