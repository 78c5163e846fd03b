/**
 * The two inverse Burrows-Wheeler transforms of the decoder: one word per row (FAST), or twenty bits per row (SMALL).
 */
module InverseTransform {
  import opened Base
  import opened Counting
  import opened Rotations
  import opened BurrowsWheeler

  lemma TVectorStable(l: seq<byte>)
    ensures StableOrder(l, TVector(l))
  {
    hide CountBelow, CountOf, TVector;
    var t := TVector(l);
    forall p, q | 0 <= p < q < |l| ensures l[t[p]] < l[t[q]] || (l[t[p]] == l[t[q]] && t[p] < t[q]) {
      assert Places(l)[t[p]] == p && Places(l)[t[q]] == q;
      if !(l[t[p]] < l[t[q]] || (l[t[p]] == l[t[q]] && t[p] < t[q])) {
        PlaceOrder(l, t[q], t[p]);
      }
    }
  }

  /** The first byte of sorted row `p` is the only byte whose places include `p`. */
  lemma FirstByte(l: seq<byte>, p: int, c: int)
    requires 0 <= p < |l| && InBand(l, p, c)
    ensures c == l[TVector(l)[p]]
  {
    hide CountBelow, CountOf, TVector;
    assert Places(l)[TVector(l)[p]] == p;
    PlaceRange(l, TVector(l)[p]);
    OneBand(l, p, c, l[TVector(l)[p]]);
  }

  /** Cumulative counts: the first place of every byte value. */
  method MakeCftab(unzftab: array<int>, cftab: array<int>, ghost l: seq<byte>)
    requires unzftab.Length == 256 && cftab.Length == 257 && unzftab != cftab
    requires forall c :: 0 <= c < 256 ==> unzftab[c] == CountOf(l, c)
    modifies cftab
    ensures forall c :: 0 <= c <= 256 ==> cftab[c] == CountBelow(l, c)
  {
    cftab[0] := 0;
    for i := 1 to 257
      invariant cftab[0] == 0
      invariant forall c :: 1 <= c < i ==> cftab[c] == CountOf(l, c - 1)
    {
      cftab[i] := unzftab[i - 1];
    }
    CountEnds(l);
    for i := 1 to 257
      invariant forall c :: 0 <= c < i ==> cftab[c] == CountBelow(l, c)
      invariant forall c :: i <= c <= 256 ==> cftab[c] == CountOf(l, c - 1)
    {
      CountNext(l, i - 1);
      cftab[i] := cftab[i] + cftab[i - 1];
    }
  }

  /** The word of row `p` after the first `i` rows have been placed. */
  ghost predicate FastWord(word: int, l: seq<byte>, t: seq<int>, i: int, p: int)
    requires 0 <= p < |l| == |t|
  {
    word == l[p] + if t[p] < i then 256 * t[p] else 0
  }

  /** One loop fills in T in place: every word keeps its row's byte below and gains the row number above. */
  method BuildFast(tt: array<int>, nblock: nat, cftab: array<int>, ghost l: seq<byte>)
    requires cftab.Length == 257 && tt != cftab && nblock == |l| <= tt.Length
    requires forall i :: 0 <= i < nblock ==> tt[i] == l[i]
    requires forall c :: 0 <= c <= 256 ==> cftab[c] == CountBelow(l, c)
    modifies tt, cftab
    ensures forall p :: 0 <= p < nblock ==> tt[p] == l[p] + 256 * TVector(l)[p]
    ensures forall p :: nblock <= p < tt.Length ==> tt[p] == old(tt[p])
  {
    hide CountBelow, CountOf, TVector, Cursor, Place;
    ghost var t := TVector(l);
    assert forall p :: 0 <= p < nblock ==> 0 <= t[p] < nblock;
    if nblock > 0 {
      forall c | 0 <= c < 256 ensures cftab[c] == Cursor(l, 0, c) { CursorMoves(l, 0, c); }
    }
    for i := 0 to nblock
      invariant forall c :: 0 <= c < 256 && i < nblock ==> cftab[c] == Cursor(l, i, c)
      invariant forall p :: 0 <= p < nblock ==> FastWord(tt[p], l, t, i, p)
      invariant forall p :: nblock <= p < tt.Length ==> tt[p] == old(tt[p])
    {
      assert FastWord(tt[i], l, t, i, i);
      var uc := tt[i] % 256;
      assert uc == l[i];
      forall c | 0 <= c < 256 ensures Cursor(l, i + 1, c) == Cursor(l, i, c) + if l[i] == c then 1 else 0 {
        CursorMoves(l, i, c);
      }
      CursorMoves(l, i, uc);
      tt[cftab[uc]] := tt[cftab[uc]] + 256 * i;
      cftab[uc] := cftab[uc] + 1;
    }
  }

  lemma FollowStart(t: seq<int>, p: int)
    requires IsPerm(t, |t|) && 0 <= p < |t|
    ensures Follow(t, p, 0) == p
  {
  }

  lemma FollowNext(t: seq<int>, p: int, k: nat)
    requires IsPerm(t, |t|) && 0 <= p < |t|
    ensures Follow(t, p, k + 1) == t[Follow(t, p, k)]
  {
  }

  // ------------------------------------------------------------ SMALL

  /** Row `i` of the packed table: sixteen bits in `ll16`, four in half a byte of `ll4`. */
  ghost predicate Packed(ll16: array<int>, ll4: array<int>)
    reads ll16, ll4
  {
    && ll16 != ll4 && ll16.Length <= 2 * ll4.Length
    && (forall i :: 0 <= i < ll16.Length ==> 0 <= ll16[i] < 0x1_0000)
    && (forall i :: 0 <= i < ll4.Length ==> 0 <= ll4[i] < 256)
  }

  function GetLL(ll16: array<int>, ll4: array<int>, i: int): int
    reads ll16, ll4
    requires 0 <= i < ll16.Length <= 2 * ll4.Length
  {
    ll16[i] + (if i % 2 == 0 then ll4[i / 2] % 16 else ll4[i / 2] / 16 % 16) * 0x1_0000
  }

  /** The packed table as a sequence of twenty-bit numbers. */
  function Table(ll16: array<int>, ll4: array<int>): (ll: seq<int>)
    reads ll16, ll4
    requires ll16.Length <= 2 * ll4.Length
  {
    seq(ll16.Length, i requires 0 <= i < ll16.Length <= 2 * ll4.Length reads ll16, ll4 => GetLL(ll16, ll4, i))
  }

  lemma HalfBytes(old4: int, high: int)
    requires 0 <= old4 < 256 && 0 <= high < 16
    ensures var low := old4 / 16 * 16 + high; 0 <= low < 256 && low % 16 == high && low / 16 % 16 == old4 / 16 % 16
    ensures var up := old4 % 16 + high * 16; 0 <= up < 256 && up % 16 == old4 % 16 && up / 16 % 16 == high
  {
  }

  method SetLL(ll16: array<int>, ll4: array<int>, i: int, n: int)
    requires Packed(ll16, ll4) && 0 <= i < ll16.Length && 0 <= n < 0x10_0000
    modifies ll16, ll4
    ensures Packed(ll16, ll4)
    ensures Table(ll16, ll4) == old(Table(ll16, ll4))[i := n]
    ensures forall j :: 0 <= j < ll16.Length && j != i ==> ll16[j] == old(ll16[j])
  {
    ll16[i] := n % 0x1_0000;
    var high := n / 0x1_0000;
    HalfBytes(ll4[i / 2], high);
    if i % 2 == 0 {
      ll4[i / 2] := ll4[i / 2] / 16 * 16 + high;
    } else {
      ll4[i / 2] := ll4[i / 2] % 16 + high * 16;
    }
    forall j | 0 <= j < ll16.Length ensures GetLL(ll16, ll4, j) == if j == i then n else old(GetLL(ll16, ll4, j)) {
    }
  }

  /** The rows met from `o` by following the places, up to and including `i`. */
  ghost predicate IsPath(path: seq<int>, places: seq<int>, o: int, i: int) {
    && path != [] && path[0] == o && path[|path| - 1] == i
    && (forall k :: 0 <= k < |path| ==> 0 <= path[k] < |places|)
    && (forall k, m :: 0 <= k < m < |path| ==> path[k] != path[m])
    && (forall k :: 1 <= k < |path| ==> path[k] == places[path[k - 1]])
  }

  /** Pointer reversal after the rows of `path` have been met: all but the first already hold their predecessor. */
  ghost predicate Reversing(ll: seq<int>, l: seq<byte>, path: seq<int>, o: int, i: int) {
    && |l| <= |ll| && IsPath(path, Places(l), o, i)
    && (forall k :: 1 <= k < |path| ==> ll[path[k]] == TVector(l)[path[k]])
    && (forall p :: 0 <= p < |l| && p !in path[1..] ==> ll[p] == Places(l)[p])
  }

  lemma PathGoesOn(path: seq<int>, places: seq<int>, o: int, i: int)
    requires IsPath(path, places, o, i) && IsPerm(places, |places|)
    ensures 0 <= places[i] < |places| && |path| <= |places|
    ensures places[i] !in path[1..]
    ensures places[i] != o ==> |path| < |places| && IsPath(path + [places[i]], places, o, places[i])
  {
    var j := places[i];
    forall m | 1 <= m < |path| ensures path[m] != j {
      assert path[m] == places[path[m - 1]];
    }
    DistinctBounded(path, |places|);
    if j != o {
      DistinctBounded(path + [j], |places|);
    }
  }

  lemma PathCloses(path: seq<int>, places: seq<int>, t: seq<int>, o: int, i: int, p: int)
    requires IsPath(path, places, o, i) && places[i] == o && p in path && |t| == |places|
    requires forall k :: 0 <= k < |places| ==> 0 <= places[k] < |places| && t[places[k]] == k
    ensures t[p] in path
  {
    var k :| 0 <= k < |path| && path[k] == p;
    if k > 0 {
      assert path[k] == places[path[k - 1]];
    } else {
      assert path[0] == places[i];
    }
  }

  lemma ReverseGrows(ll: seq<int>, l: seq<byte>, path: seq<int>, o: int, i: int)
    requires Reversing(ll, l, path, o, i) && IsPerm(Places(l), |l|) && Places(l)[i] != o
    ensures Reversing(ll[Places(l)[i] := i], l, path + [Places(l)[i]], o, Places(l)[i])
  {
    hide TVector, Places, Place, IsPerm;
    var j, path' := Places(l)[i], path + [Places(l)[i]];
    PathGoesOn(path, Places(l), o, i);
    assert path'[1..] == path[1..] + [j];
    var ll' := ll[j := i];
    assert TVector(l)[j] == i;
    forall k | 1 <= k < |path'| ensures ll'[path'[k]] == TVector(l)[path'[k]] {
      assert k < |path| ==> path'[k] == path[k] == path[1..][k - 1];
    }
    forall p | 0 <= p < |l| && p !in path'[1..] ensures ll'[p] == Places(l)[p] {
      assert p != j && p !in path[1..];
    }
  }

  lemma ReverseCloses(ll: seq<int>, l: seq<byte>, path: seq<int>, o: int, i: int)
    requires Reversing(ll, l, path, o, i) && Places(l)[i] == o
    ensures HoldsCycle(Elements(path), ll[o := i], l)
  {
    hide TVector, Places, Place;
    assert TVector(l)[o] == i;
    forall p | p in path
      ensures 0 <= p < |l| && TVector(l)[p] in path && ll[o := i][p] == TVector(l)[p]
    {
      PathCloses(path, Places(l), TVector(l), o, i, p);
      var k :| 0 <= k < |path| && path[k] == p;
    }
  }

  lemma ReverseStep(ll: seq<int>, l: seq<byte>, path: seq<int>, o: int, i: int)
    requires Reversing(ll, l, path, o, i)
    ensures var j := Places(l)[i];
            && 0 <= i < |l| && 0 <= j < |l| && ll[j] == Places(l)[j] && |path| <= |l|
            && (j != o ==> |path| < |l| && Reversing(ll[j := i], l, path + [j], o, j))
            && (j == o ==> HoldsCycle(Elements(path), ll[j := i], l))
  {
    hide TVector, Places, IsPerm, HoldsCycle;
    PlacesIsPerm(l);
    PathGoesOn(path, Places(l), o, i);
    if Places(l)[i] == o {
      ReverseCloses(ll, l, path, o, i);
    } else {
      ReverseGrows(ll, l, path, o, i);
    }
  }

  /** Rows closed under T, on which the table holds T. */
  ghost predicate HoldsCycle(rows: set<int>, ll: seq<int>, l: seq<byte>) {
    && |l| <= |ll|
    && forall p :: p in rows ==> 0 <= p < |l| && TVector(l)[p] in rows && ll[p] == TVector(l)[p]
  }

  /** The place of one row, from the cursor of its byte. */
  method PutPlace(ll16: array<int>, ll4: array<int>, i: nat, cftabCopy: array<int>, ghost l: seq<byte>)
    requires Packed(ll16, ll4) && cftabCopy.Length == 257 && cftabCopy != ll16 && cftabCopy != ll4
    requires i < |l| <= ll16.Length && |l| < 0x10_0000 && ll16[i] == l[i]
    requires forall c :: 0 <= c < 256 ==> cftabCopy[c] == Cursor(l, i, c)
    modifies ll16, ll4, cftabCopy
    ensures Packed(ll16, ll4) && Table(ll16, ll4) == old(Table(ll16, ll4))[i := Places(l)[i]]
    ensures forall j :: 0 <= j < ll16.Length && j != i ==> ll16[j] == old(ll16[j])
    ensures forall c :: 0 <= c < 256 ==> cftabCopy[c] == Cursor(l, i + 1, c)
  {
    hide CountBelow, CountOf, TVector, Cursor, Place, GetLL, Packed, Table;
    var uc := ll16[i];
    forall c | 0 <= c < 256 ensures Cursor(l, i + 1, c) == Cursor(l, i, c) + if l[i] == c then 1 else 0 {
      CursorMoves(l, i, c);
    }
    CursorMoves(l, i, uc);
    SetLL(ll16, ll4, i, cftabCopy[uc]);
    cftabCopy[uc] := cftabCopy[uc] + 1;
  }

  /** First loop of SMALL: over the bytes it stores the places, in the same table. */
  method BuildPlaces(ll16: array<int>, ll4: array<int>, nblock: nat, cftab: array<int>, ghost l: seq<byte>)
    requires Packed(ll16, ll4) && cftab.Length == 257 && cftab != ll16 && cftab != ll4
    requires nblock == |l| <= ll16.Length && nblock < 0x10_0000
    requires forall i :: 0 <= i < nblock ==> ll16[i] == l[i]
    requires forall c :: 0 <= c <= 256 ==> cftab[c] == CountBelow(l, c)
    modifies ll16, ll4
    ensures Packed(ll16, ll4)
    ensures forall i :: 0 <= i < nblock ==> Table(ll16, ll4)[i] == Places(l)[i]
  {
    if nblock > 0 {
      forall c | 0 <= c < 256 ensures cftab[c] == Cursor(l, 0, c) { CursorMoves(l, 0, c); }
    }
    var cftabCopy := new int[257];
    for i := 0 to 257
      modifies cftabCopy
      invariant forall c :: 0 <= c < i ==> cftabCopy[c] == cftab[c]
    {
      cftabCopy[i] := cftab[i];
    }
    hide CountBelow, CountOf, TVector, Cursor, Place, GetLL;
    for i := 0 to nblock
      invariant Packed(ll16, ll4)
      invariant forall c :: 0 <= c < 256 && i < nblock ==> cftabCopy[c] == Cursor(l, i, c)
      invariant forall k :: 0 <= k < i ==> Table(ll16, ll4)[k] == Places(l)[k]
      invariant forall k :: i <= k < nblock ==> ll16[k] == l[k]
    {
      PutPlace(ll16, ll4, i, cftabCopy, l);
    }
  }

  /** Second loop of SMALL: pointer reversal round the one cycle that passes through `origPtr`. */
  method ReverseCycle(ll16: array<int>, ll4: array<int>, origPtr: int, ghost l: seq<byte>)
      returns (ghost rows: set<int>)
    requires Packed(ll16, ll4) && 0 <= origPtr < |l| <= ll16.Length && |l| < 0x10_0000
    requires forall i :: 0 <= i < |l| ==> Table(ll16, ll4)[i] == Places(l)[i]
    modifies ll16, ll4
    ensures Packed(ll16, ll4)
    ensures origPtr in rows && HoldsCycle(rows, Table(ll16, ll4), l)
  {
    PlacesIsPerm(l);
    hide TVector, Places, Place, GetLL;
    var i := origPtr;
    var j := GetLL(ll16, ll4, i);
    ghost var path := [i];
    while true
      invariant Packed(ll16, ll4) && Reversing(Table(ll16, ll4), l, path, origPtr, i) && j == Places(l)[i]
      decreases |l| - |path|
    {
      ReverseStep(Table(ll16, ll4), l, path, origPtr, i);
      hide Reversing, HoldsCycle;
      var tmp := GetLL(ll16, ll4, j);
      SetLL(ll16, ll4, j, i);
      i, j := j, tmp;
      if i == origPtr {
        rows := Elements(path);
        return;
      }
      path := path + [i];
    }
  }

  /** `BZ2_indexIntoF`: bisection for the byte value whose places include `indx`. */
  method IndexIntoF(indx: int, cftab: array<int>) returns (nb: int)
    requires cftab.Length == 257 && cftab[0] <= indx < cftab[256]
    ensures 0 <= nb < 256 && cftab[nb] <= indx < cftab[nb + 1]
  {
    nb := 0;
    var na := 256;
    while true
      invariant 0 <= nb && nb + 2 <= na <= 256
      invariant cftab[nb] <= indx < cftab[na]
      decreases na - nb
    {
      var mid := (nb + na) / 2;
      if indx >= cftab[mid] { nb := mid; } else { na := mid; }
      if na - nb == 1 { return; }
    }
  }

  /** The T vector of the last column spells the block that was transformed. */
  lemma ColumnSpellsBlock(b: seq<byte>, ptr: seq<int>, origPtr: int)
    requires SortsRotations(b, ptr) && 0 <= origPtr < |b| && ptr[origPtr] == 0
    ensures var l := LastColumn(b, ptr); Walk(l, TVector(l), TVector(l)[origPtr], |b|) == b
  {
    TVectorStable(LastColumn(b, ptr));
    Inversion(b, ptr, TVector(LastColumn(b, ptr)), origPtr);
  }

  lemma {:induction false} WalkAt(l: seq<byte>, t: seq<int>, p: int, m: nat, k: nat)
    requires IsPerm(t, |l|) && 0 <= p < |l| && k < m
    ensures Walk(l, t, p, m)[k] == l[Follow(t, p, k)]
    decreases k
  {
    if k > 0 {
      WalkAt(l, t, t[p], m - 1, k - 1);
      FollowFirst(t, p, k - 1);
    } else {
      FollowStart(t, p);
    }
  }
}
