/** Reading a decoded block byte by byte through either inverse transform. */
module BlockReaders {
  import opened Base
  import opened Counting
  import opened Rotations
  import opened BurrowsWheeler
  import opened InverseTransform

  /** How often each byte occurs in the column. */
  method CountBytes(column: seq<byte>) returns (unzftab: array<int>)
    ensures fresh(unzftab) && unzftab.Length == 256 && forall c :: 0 <= c < 256 ==> unzftab[c] == CountOf(column, c)
  {
    unzftab := new int[256](_ => 0);
    assert column[..0] == [];
    for i := 0 to |column|
      invariant forall c :: 0 <= c < 256 ==> unzftab[c] == CountOf(column[..i], c)
    {
      assert column[..i + 1][..i] == column[..i];
      unzftab[column[i]] := unzftab[column[i]] + 1;
    }
    assert column[..|column|] == column;
  }

  method FirstPlaces(column: seq<byte>) returns (cftab: array<int>)
    ensures fresh(cftab) && cftab.Length == 257 && forall c :: 0 <= c <= 256 ==> cftab[c] == CountBelow(column, c)
  {
    var unzftab := CountBytes(column);
    cftab := new int[257];
    MakeCftab(unzftab, cftab, column);
  }

  ghost predicate FastHolds(tt: seq<int>, l: seq<byte>, t: seq<int>) {
    |tt| == |t| == |l| && forall p :: 0 <= p < |l| ==> tt[p] == l[p] + 256 * t[p]
  }

  ghost predicate SmallHolds(ll: seq<int>, rows: set<int>, t: seq<int>) {
    |t| <= |ll| && forall p :: p in rows ==> 0 <= p < |t| && t[p] in rows && ll[p] == t[p]
  }

  ghost predicate StartsBands(cftab: seq<int>, l: seq<byte>) {
    |cftab| == 257 && forall c :: 0 <= c <= 256 ==> cftab[c] == CountBelow(l, c)
  }

  /** `t` is the T vector of column `l`. */
  ghost predicate IsTVector(t: seq<int>, l: seq<byte>) {
    t == TVector(l)
  }

  lemma TVectorIsPerm(t: seq<int>, l: seq<byte>)
    requires IsTVector(t, l)
    ensures IsPerm(t, |l|) && |t| == |l|
  {
  }

  lemma BandByte(t: seq<int>, l: seq<byte>, p: int, c: int)
    requires IsTVector(t, l) && 0 <= p < |l| == |t| && CountBelow(l, c) <= p < CountBelow(l, c + 1)
    ensures 0 <= t[p] < |l| && c == l[t[p]]
  {
    hide CountBelow, TVector;
    FirstByte(l, p, c);
  }

  /** `tt` once the decoder reaches its output state. */
  method FastTable(column: seq<byte>) returns (tt: array<int>, ghost t: seq<int>)
    ensures fresh(tt) && IsTVector(t, column) && FastHolds(tt[..], column, t)
  {
    var cftab := FirstPlaces(column);
    tt := new int[|column|](i requires 0 <= i < |column| => column[i] as int);
    BuildFast(tt, |column|, cftab, column);
    t := TVector(column);
  }

  /** `ll16` and `ll4` once the decoder reaches its output state. */
  method SmallTable(column: seq<byte>, origPtr: int)
    returns (ll16: array<int>, ll4: array<int>, cftab: array<int>, ghost rows: set<int>, ghost t: seq<int>)
    requires 0 <= origPtr < |column| < 0x10_0000
    ensures fresh(ll16) && fresh(ll4) && fresh(cftab) && ll16.Length <= 2 * ll4.Length && IsTVector(t, column)
    ensures origPtr in rows && SmallHolds(Table(ll16, ll4), rows, t) && StartsBands(cftab[..], column)
  {
    hide *;
    cftab := FirstPlaces(column);
    ll16, ll4 := LoadSmall(column);
    BuildPlaces(ll16, ll4, |column|, cftab, column);
    rows := ReverseCycle(ll16, ll4, origPtr, column);
    t := TVector(column);
    SmallDone(ll16, ll4, cftab, column, rows);
  }

  lemma SmallDone(ll16: array<int>, ll4: array<int>, cftab: array<int>, l: seq<byte>, rows: set<int>)
    requires Packed(ll16, ll4) && HoldsCycle(rows, Table(ll16, ll4), l)
    requires cftab.Length == 257 && forall c :: 0 <= c <= 256 ==> cftab[c] == CountBelow(l, c)
    ensures ll16.Length <= 2 * ll4.Length && IsTVector(TVector(l), l)
    ensures SmallHolds(Table(ll16, ll4), rows, TVector(l)) && StartsBands(cftab[..], l)
  {
    hide TVector, Table, CountBelow;
  }

  method LoadSmall(column: seq<byte>) returns (ll16: array<int>, ll4: array<int>)
    ensures fresh(ll16) && fresh(ll4) && Packed(ll16, ll4) && ll16.Length == |column|
    ensures forall i :: 0 <= i < |column| ==> ll16[i] == column[i] as int
  {
    ll16 := new int[|column|](i requires 0 <= i < |column| => column[i] as int);
    ll4 := new int[(1 + |column|) / 2](_ => 0);
  }

  /** The tables of one block, in the form the stream was opened for. */
  class BlockReader {
    const small: bool
    const limit: int
    const origPtr: int
    const tt: array<int>
    const ll16: array<int>
    const ll4: array<int>
    const cftab: array<int>
    ghost const l: seq<byte>
    ghost const t: seq<int>
    ghost const rows: set<int>

    ghost predicate SmallReady()
      reads ll16, ll4, cftab
    {
      ll16.Length <= 2 * ll4.Length && origPtr in rows && SmallHolds(Table(ll16, ll4), rows, t)
          && StartsBands(cftab[..], l)
    }

    ghost predicate Valid()
      reads tt, ll16, ll4, cftab
    {
      && 0 <= origPtr < |l| == |t| && |l| <= limit && IsTVector(t, l) && IsPerm(t, |t|)
      && if small then SmallReady() else FastHolds(tt[..], l, t)
    }

    /** `tPos` is where the walk stands after `k` bytes. */
    ghost predicate At(tPos: int, k: nat)
      requires 0 <= origPtr < |t| && IsPerm(t, |t|)
    {
      if small then tPos in rows && 0 <= tPos < |t| && t[tPos] == Follow(t, t[origPtr], k)
      else tPos == Follow(t, t[origPtr], k)
    }

    /** The byte the walk yields after `k` others. */
    ghost function ByteAt(k: nat): byte
      requires 0 <= origPtr < |t| == |l| && IsPerm(t, |t|)
    {
      l[Follow(t, t[origPtr], k)]
    }

    constructor (small: bool, limit: int, column: seq<byte>, origPtr: int)
      requires 0 <= origPtr < |column| <= limit <= 900000
      ensures Valid() && this.small == small && l == column && this.origPtr == origPtr && this.limit == limit
      ensures fresh(tt) && fresh(ll16) && fresh(ll4) && fresh(cftab)
    {
      hide IsTVector, IsPerm, FastHolds, SmallHolds, StartsBands, Table, GetLL;
      ghost var r: set<int>, v: seq<int> := {}, [];
      var w, a, b, c := new int[0], new int[0], new int[0], new int[0];
      if small {
        a, b, c, r, v := SmallTable(column, origPtr);
      } else {
        w, v := FastTable(column);
      }
      TVectorIsPerm(v, column);
      this.small, this.limit, l, this.origPtr := small, limit, column, origPtr;
      tt, ll16, ll4, cftab, rows, t := w, a, b, c, r, v;
    }

    /** Where the walk starts. */
    method Start() returns (tPos: int)
      requires Valid()
      ensures At(tPos, 0)
    {
      hide IsTVector;
      FollowStart(t, t[origPtr]);
      tPos := if small then origPtr else tt[..][origPtr] / 256;
    }

    /** BZ_GET_FAST and BZ_GET_SMALL: the next byte of the walk. The range test never fires. */
    method Get(tPos0: int, ghost k: nat) returns (corrupt: bool, c: int, tPos: int)
      requires Valid() && At(tPos0, k)
      ensures !corrupt && c == ByteAt(k) && At(tPos, k + 1)
    {
      hide IsTVector, SmallHolds, FastHolds, StartsBands;
      FollowNext(t, t[origPtr], k);
      corrupt, c, tPos := false, 0, tPos0;
      InRange(tPos0, k);
      if tPos0 >= limit {
        corrupt := true;
        return;
      }
      if small {
        c, tPos := GetSmall(tPos0, k);
      } else {
        c, tPos := GetFast(tPos0, k);
      }
    }

    lemma InRange(tPos: int, k: nat)
      requires Valid() && At(tPos, k)
      ensures 0 <= tPos < limit
    {
      hide IsTVector;
    }

    method GetFast(tPos0: int, ghost k: nat) returns (c: int, tPos: int)
      requires !small && Valid() && At(tPos0, k)
      ensures 0 <= tPos0 < |t| && c == ByteAt(k) && tPos == t[tPos0]
    {
      hide IsTVector, IsPerm, Follow;
      var word := tt[tPos0];
      assert word == tt[..][tPos0];
      c := word % 256;
      tPos := word / 256;
    }

    method GetSmall(tPos0: int, ghost k: nat) returns (c: int, tPos: int)
      requires small && Valid() && At(tPos0, k)
      ensures 0 <= tPos0 < |t| && c == ByteAt(k) && tPos == t[tPos0] && tPos in rows && 0 <= tPos < |t|
    {
      hide IsTVector, IsPerm, Follow, CountBelow, GetLL;
      CountEnds(l);
      assert forall c :: 0 <= c <= 256 ==> cftab[..][c] == cftab[c];
      c := IndexIntoF(tPos0, cftab);
      BandByte(t, l, tPos0, c);
      tPos := GetLL(ll16, ll4, tPos0);
      assert tPos == Table(ll16, ll4)[tPos0];
    }
  }

  /** The reader of a last column yields the block that was transformed, in the fast form and in the small one alike. */
  lemma ReaderSpellsBlock(r: BlockReader, b: seq<byte>, ptr: seq<int>, k: nat)
    requires r.Valid() && SortsRotations(b, ptr) && r.l == LastColumn(b, ptr) && r.origPtr < |ptr|
             && ptr[r.origPtr] == 0 && k < |b|
    ensures r.ByteAt(k) == b[k]
  {
    hide SortsRotations, LastColumn, FastHolds, SmallHolds, StartsBands, Table, TVector;
    ColumnSpellsBlock(b, ptr, r.origPtr);
    WalkAt(r.l, r.t, r.t[r.origPtr], |b|, k);
  }
}
