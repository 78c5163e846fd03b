/** `makeMaps_e` and `generateMTFValues`: from the sorted block to the symbols that are Huffman-coded. */
module GenerateMtf {
  import opened Base
  import opened Rotations
  import opened MoveToFront

  // ------------------------------------------------------------ the bytes in use

  /** The bytes below `k` that occur, in ascending order. */
  function Used(inUse: seq<bool>, k: nat): (u: seq<byte>)
    requires k <= |inUse| <= 256
    ensures |u| <= k
  {
    if k == 0 then [] else Used(inUse, k - 1) + if inUse[k - 1] then [k - 1] else []
  }

  function Rank(inUse: seq<bool>, c: byte): int
    requires |inUse| == 256
  {
    |Used(inUse, c)|
  }

  lemma {:induction false} UsedAtRank(inUse: seq<bool>, c: nat, k: nat)
    requires |inUse| == 256 && c < k <= 256 && inUse[c]
    ensures |Used(inUse, c)| < |Used(inUse, k)| && Used(inUse, k)[|Used(inUse, c)|] as int == c
    decreases k
  {
    if k > c + 1 {
      UsedAtRank(inUse, c, k - 1);
    }
  }

  /** The column with every byte replaced by its number among the bytes in use. */
  function Sequenced(inUse: seq<bool>, l: seq<byte>): (r: seq<byte>)
    requires |inUse| == 256 && forall i :: 0 <= i < |l| ==> inUse[l[i]]
    ensures |r| == |l|
    ensures Under(r, |Used(inUse, 256)|)
  {
    var r := seq(|l|, i requires 0 <= i < |l| => SequencedByte(inUse, l[i]));
    r
  }

  function SequencedByte(inUse: seq<bool>, c: byte): (r: byte)
    requires |inUse| == 256 && inUse[c]
    ensures r as int == Rank(inUse, c) < |Used(inUse, 256)| && Used(inUse, 256)[r] == c
  {
    UsedAtRank(inUse, c, 256);
    Rank(inUse, c)
  }

  /** The decoder's map undoes the encoder's. */
  lemma SequencedBack(inUse: seq<bool>, l: seq<byte>)
    requires |inUse| == 256 && forall i :: 0 <= i < |l| ==> inUse[l[i]]
    ensures MapBack(Used(inUse, 256), Sequenced(inUse, l)) == l
  {
  }

  function Identity(): (s: seq<byte>)
    ensures |s| == 256 && forall i :: 0 <= i < 256 ==> s[i] == i
  {
    seq(256, i requires 0 <= i < 256 => i)
  }

  lemma IdentityHasAll(s: seq<byte>)
    ensures Within(s, Identity())
  {
    forall i | 0 <= i < |s| ensures s[i] in Identity() {
      assert Identity()[s[i]] == s[i];
    }
  }

  /** What one block's column becomes: the symbols, and the end-of-block symbol. */
  function BlockSymbols(inUse: seq<bool>, l: seq<byte>): (s: seq<int>)
    requires |inUse| == 256 && forall i :: 0 <= i < |l| ==> inUse[l[i]]
  {
    IdentityHasAll(Sequenced(inUse, l));
    Symbols(0, Identity(), Sequenced(inUse, l)) + [|Used(inUse, 256)| + 1]
  }

  /** The decoder, fed a block's symbols, recovers the block's last column. */
  lemma BlockSymbolsDecode(inUse: seq<bool>, l: seq<byte>, nblockMAX: int)
    requires |inUse| == 256 && l != [] && |l| <= nblockMAX <= 900000 && forall i :: 0 <= i < |l| ==> inUse[l[i]]
    ensures var u := Used(inUse, 256);
            Feed(MtfState(Identity(), [], false, 0, 0), BlockSymbols(inUse, l), |u| + 1, u, nblockMAX) == Done(l)
  {
    var u := Used(inUse, 256);
    IdentityHasAll(Sequenced(inUse, l));
    UsedAtRank(inUse, l[0], 256);
    hide Used, Feed, Symbols, Sequenced;
    FeedSymbols(Identity(), [], 0, Sequenced(inUse, l), u, nblockMAX);
    SequencedBack(inUse, l);
    assert [] + Pending(Identity(), 0, u) + l == l;
  }

  lemma BlockSymbolsRange(inUse: seq<bool>, l: seq<byte>)
    requires |inUse| == 256 && l != [] && forall i :: 0 <= i < |l| ==> inUse[l[i]]
    ensures 2 <= |BlockSymbols(inUse, l)| + 1 && |BlockSymbols(inUse, l)| <= |l| + 1
  {
    IdentityHasAll(Sequenced(inUse, l));
    SymbolsBound(0, Identity(), Sequenced(inUse, l));
  }

  /** No symbol of a column reaches the end-of-block symbol. */
  lemma {:induction false} SymbolsBelow(zPend: nat, order: seq<byte>, rest: seq<byte>, n: int)
    requires LowFirst(order, n) && Within(rest, order) && Under(rest, n)
    ensures forall k :: 0 <= k < |Symbols(zPend, order, rest)| ==> 0 <= Symbols(zPend, order, rest)[k] <= n
    decreases |rest|
  {
    hide Within, Under, Front, IndexOf, Flush;
    FlushIsRun(zPend, n);
    if rest != [] {
      WithinTail(rest, order);
      UnderTail(rest, n);
      if rest[0] == order[0] {
        SymbolsBelow(zPend + 1, order, rest[1..], n);
      } else {
        LowFirstMoves(order, n, rest[0]);
        hide LowFirst;
        SymbolsBelow(0, Front(order, IndexOf(order, rest[0])), rest[1..], n);
      }
    }
  }

  lemma FlushIsRun(zPend: nat, n: int)
    requires n >= 1
    ensures forall k :: 0 <= k < |Flush(zPend)| ==> 0 <= Flush(zPend)[k] <= n
  {
  }

  /** The end-of-block symbol is the last symbol and no other. */
  lemma BlockSymbolsEnd(inUse: seq<bool>, l: seq<byte>)
    requires |inUse| == 256 && l != [] && forall i :: 0 <= i < |l| ==> inUse[l[i]]
    ensures var (s, n) := (BlockSymbols(inUse, l), |Used(inUse, 256)|);
            s != [] && s[|s| - 1] == n + 1 && forall k :: 0 <= k < |s| - 1 ==> 0 <= s[k] <= n
  {
    IdentityHasAll(Sequenced(inUse, l));
    UsedAtRank(inUse, l[0], 256);
    SymbolsBelow(0, Identity(), Sequenced(inUse, l), |Used(inUse, 256)|);
  }

  // ------------------------------------------------------------ the imperative encoder

  /** `makeMaps_e`. */
  method MakeMapsE(inUse: array<bool>, unseqToSeq: array<byte>) returns (nInUse: int)
    requires inUse.Length == unseqToSeq.Length == 256 && inUse as object != unseqToSeq
    modifies unseqToSeq
    ensures nInUse == |Used(inUse[..], 256)|
    ensures forall c :: 0 <= c < 256 && inUse[c] ==> unseqToSeq[c] as int == Rank(inUse[..], c)
  {
    nInUse := 0;
    for i := 0 to 256
      invariant nInUse == |Used(inUse[..], i)|
      invariant forall c :: 0 <= c < i && inUse[c] ==> unseqToSeq[c] as int == Rank(inUse[..], c)
    {
      if inUse[i] {
        unseqToSeq[i] := nInUse;
        nInUse := nInUse + 1;
      }
    }
  }

  /** The frequencies of the first `n` symbols are their counts in what has been written. */
  ghost predicate Tallied(mtfv: seq<int>, wr: int, mtfFreq: seq<int>, n: int) {
    0 <= wr <= |mtfv| && 0 <= n <= |mtfFreq| && forall v :: 0 <= v < n ==> mtfFreq[v] == multiset(mtfv[..wr])[v]
  }

  /** One symbol appended to `mtfv` and counted. */
  method Put(mtfv: array<int>, mtfFreq: array<int>, wr: int, sym: int, ghost n: int)
    requires mtfv != mtfFreq && 0 <= wr < mtfv.Length && 0 <= sym < n && Tallied(mtfv[..], wr, mtfFreq[..], n)
    modifies mtfv, mtfFreq
    ensures mtfv[..wr + 1] == old(mtfv[..wr]) + [sym] && Tallied(mtfv[..], wr + 1, mtfFreq[..], n)
  {
    ghost var s := mtfv[..wr];
    mtfv[wr] := sym;
    mtfFreq[sym] := mtfFreq[sym] + 1;
    assert mtfv[..][..wr + 1] == s + [sym];
  }

  /** The digits of a pending run, least significant first. */
  method PutRun(mtfv: array<int>, mtfFreq: array<int>, wr0: int, zPend0: int, ghost n: int) returns (wr: int)
    requires mtfv != mtfFreq && 0 <= wr0 && zPend0 > 0 && wr0 + zPend0 <= mtfv.Length && 2 <= n
    requires Tallied(mtfv[..], wr0, mtfFreq[..], n)
    modifies mtfv, mtfFreq
    ensures wr0 <= wr <= wr0 + zPend0 && mtfv[..wr] == old(mtfv[..wr0]) + Flush(zPend0)
    ensures Tallied(mtfv[..], wr, mtfFreq[..], n)
  {
    wr := wr0;
    var zPend := zPend0 - 1;
    ghost var s := mtfv[..wr0];
    hide Tallied;
    while true
      invariant 0 <= zPend && wr0 <= wr && wr + zPend < wr0 + zPend0
      invariant mtfv[..wr] + RunDigits(zPend) == s + RunDigits(zPend0 - 1)
      invariant Tallied(mtfv[..], wr, mtfFreq[..], n)
      decreases zPend
    {
      ghost var before := mtfv[..wr];
      Put(mtfv, mtfFreq, wr, if zPend % 2 == 1 then BZ_RUNB else BZ_RUNA, n);
      wr := wr + 1;
      assert before + RunDigits(zPend) == mtfv[..wr] + if zPend < 2 then [] else RunDigits((zPend - 2) / 2);
      if zPend < 2 { break; }
      zPend := (zPend - 2) / 2;
    }
  }

  /**
   * `s` is `f` with its entries 0..j-1 moved up one place, except that the first still stands; entry `j` is in hand.
   */
  ghost predicate Shifting(f: seq<byte>, s: seq<byte>, j: int) {
    && |s| == |f| && 0 <= j < |f| && s[0] == f[0]
    && (forall k :: 1 <= k <= j ==> s[k] == f[k - 1])
    && (forall k :: j < k < |f| ==> s[k] == f[k])
  }

  lemma ShiftingOn(f: seq<byte>, s: seq<byte>, j: int, c: byte)
    requires Shifting(f, s, j) && c in f && c !in f[..j] && f[j] != c
    ensures j + 1 < |f| == |s| && s[j + 1] == f[j + 1] && c !in f[..j + 1] && Shifting(f, s[j + 1 := f[j]], j + 1)
  {
    assert f[..j + 1] == f[..j] + [f[j]] && f[..|f|] == f;
  }

  lemma ShiftingEnds(f: seq<byte>, s: seq<byte>, j: int, c: byte)
    requires Shifting(f, s, j) && f[j] == c && c !in f[..j]
    ensures c in f && |s| == |f| > j >= 0 && j == IndexOf(f, c) && s[0 := c] == Front(f, j)
  {
    FirstIndex(f, c, j);
    hide IndexOf;
  }

  /** The search that shifts as it goes: byte `c` moves to the front, its old place is returned. */
  method ShiftToFront(yy: array<byte>, c: byte, ghost n: int) returns (j: int)
    requires 2 <= n <= yy.Length && c in yy[..n] && yy[0] != c
    modifies yy
    ensures 1 <= j < n && j == IndexOf(old(yy[..n]), c)
    ensures yy[..n] == Front(old(yy[..n]), j)
  {
    ghost var f := yy[..n];
    j := 1;
    var rtmp := yy[1];
    yy[1] := yy[0];
    assert f[..1] == [f[0]] && Shifting(f, yy[..n], 1);
    hide Shifting, IndexOf, Front;
    while c != rtmp
      invariant 1 <= j < n && rtmp == f[j] && c !in f[..j] && Shifting(f, yy[..n], j)
      decreases n - j
    {
      ghost var s := yy[..n];
      ShiftingOn(f, s, j, c);
      j := j + 1;
      var rtmp2 := rtmp;
      rtmp := yy[j];
      yy[j] := rtmp2;
      assert yy[..n] == s[j := rtmp2];
    }
    ShiftingEnds(f, yy[..n], j, c);
    ghost var s := yy[..n];
    yy[0] := rtmp;
    assert yy[..n] == s[0 := rtmp];
  }

  lemma {:induction false} FirstIndex(order: seq<byte>, c: byte, j: int)
    requires 0 <= j < |order| && order[j] == c && c !in order[..j]
    ensures IndexOf(order, c) == j
  {
  }

  /** The encoder between two bytes: what is written, what is pending, and what the rest will add. */
  ghost predicate Coding(total: seq<int>, written: seq<int>, zPend: int, order: seq<byte>, n: int, rest: seq<byte>) {
    && zPend >= 0 && LowFirst(order, n) && Within(rest, order) && Under(rest, n)
    && written + Symbols(zPend, order, rest) == total
  }

  lemma CodingStep(total: seq<int>, written: seq<int>, zPend: int, order: seq<byte>, n: int, rest: seq<byte>)
    requires Coding(total, written, zPend, order, n, rest) && rest != []
    ensures rest[0] < n && rest[0] in order && |order| >= n >= 1
    ensures rest[0] == order[0] ==> Coding(total, written, zPend + 1, order, n, rest[1..])
    ensures rest[0] != order[0] ==>
              var j := IndexOf(order, rest[0]);
              1 <= j < n && Coding(total, written + Flush(zPend) + [j + 1], 0, Front(order, j), n, rest[1..])
  {
    hide Within, Under, Front, IndexOf, Flush;
    WithinTail(rest, order);
    UnderTail(rest, n);
    if rest[0] != order[0] {
      CodingMove(total, written, zPend, order, n, rest);
    }
  }

  lemma CodingMove(total: seq<int>, written: seq<int>, zPend: int, order: seq<byte>, n: int, rest: seq<byte>)
    requires Coding(total, written, zPend, order, n, rest) && rest != [] && rest[0] != order[0]
    ensures rest[0] in order
    ensures var j := IndexOf(order, rest[0]);
            1 <= j < n && Coding(total, written + Flush(zPend) + [j + 1], 0, Front(order, j), n, rest[1..])
  {
    hide Within, Under, Front, IndexOf, Flush, Symbols;
    WithinTail(rest, order);
    UnderTail(rest, n);
    var j := IndexOf(order, rest[0]);
    LowFirstMoves(order, n, rest[0]);
    SymbolsMove(zPend, order, rest, 0);
    hide LowFirst;
    var tail := Symbols(0, Front(order, j), rest[1..]);
    CutLast(Symbols(zPend, order, rest), Flush(zPend), j + 1, tail);
    assert written + (Flush(zPend) + ([j + 1] + tail)) == written + Flush(zPend) + [j + 1] + tail;
  }

  lemma CutLast(s: seq<int>, a: seq<int>, x: int, t: seq<int>)
    requires s + [0] == a + ([x] + (t + [0]))
    ensures s == a + ([x] + t)
  {
    assert s == (s + [0])[..|s|];
  }

  /** The front of the long list is what the short array holds. */
  lemma FrontOfPrefix(order: seq<byte>, n: int, c: byte)
    requires LowFirst(order, n) && c < n && c in order
    ensures c in order[..n] && IndexOf(order[..n], c) == IndexOf(order, c) < n
    ensures Front(order, IndexOf(order, c))[..n] == Front(order[..n], IndexOf(order, c))
  {
    var j := IndexOf(order, c);
    assert order[..n][j] == c && order[..n][..j] == order[..j];
    FirstIndex(order[..n], c, j);
  }

  lemma ColumnAt(block: seq<byte>, ptr: seq<int>, u: seq<bool>, i: int)
    requires IsPerm(ptr, |block|) && |u| == 256 && 0 <= i < |block| && forall k :: 0 <= k < |block| ==> u[block[k]]
    ensures forall k :: 0 <= k < |block| ==> u[LastColumn(block, ptr)[k]]
    ensures 0 <= Prev(|block|, ptr[i]) < |block| && u[block[Prev(|block|, ptr[i])]]
    ensures Sequenced(u, LastColumn(block, ptr))[i] as int == Rank(u, block[Prev(|block|, ptr[i])])
  {
  }

  lemma CodingStarts(u: seq<bool>, l: seq<byte>)
    requires |u| == 256 && l != [] && forall i :: 0 <= i < |l| ==> u[l[i]]
    ensures Within(Sequenced(u, l), Identity()) && 1 <= |Used(u, 256)|
    ensures Coding(Symbols(0, Identity(), Sequenced(u, l)), [], 0, Identity(), |Used(u, 256)|, Sequenced(u, l))
    ensures BlockSymbols(u, l) == Symbols(0, Identity(), Sequenced(u, l)) + [|Used(u, 256)| + 1]
  {
    IdentityHasAll(Sequenced(u, l));
    UsedAtRank(u, l[0], 256);
  }

  lemma CodingEnds(total: seq<int>, written: seq<int>, zPend: int, order: seq<byte>, n: int)
    requires Coding(total, written, zPend, order, n, [])
    ensures total == written + Flush(zPend)
  {
  }

  lemma CodingList(total: seq<int>, written: seq<int>, zPend: int, order: seq<byte>, n: int, rest: seq<byte>)
    requires Coding(total, written, zPend, order, n, rest)
    ensures zPend >= 0 && 1 <= n <= |order| && LowFirst(order, n)
  {
  }

  /** One byte of the column: counted as a zero, or the run and its position written. */
  method EncodeByte(yy: array<byte>, ll: byte, mtfv: array<int>, mtfFreq: array<int>, wr0: int, zPend0: int,
                    ghost n: int, ghost total: seq<int>, ghost order0: seq<byte>, ghost rest: seq<byte>)
    returns (wr: int, zPend: int, ghost order: seq<byte>)
    requires mtfv != mtfFreq && yy as object != mtfv && yy as object != mtfFreq
    requires 0 <= wr0 && 0 <= zPend0 && wr0 + zPend0 < mtfv.Length && n <= 256 == yy.Length && |order0| == 256
    requires Coding(total, mtfv[..wr0], zPend0, order0, n, rest) && rest != [] && rest[0] == ll
    requires yy[..n] == order0[..n] && Tallied(mtfv[..], wr0, mtfFreq[..], n + 2)
    modifies yy, mtfv, mtfFreq
    ensures 0 <= wr && 0 <= zPend && wr + zPend <= wr0 + zPend0 + 1 && |order| == 256
    ensures Coding(total, mtfv[..wr], zPend, order, n, rest[1..]) && yy[..n] == order[..n]
    ensures Tallied(mtfv[..], wr, mtfFreq[..], n + 2)
  {
    hide Coding, Tallied, Flush, Front, IndexOf, LowFirst;
    ghost var written := mtfv[..wr0];
    CodingStep(total, written, zPend0, order0, n, rest);
    CodingList(total, written, zPend0, order0, n, rest);
    FrontOfPrefix(order0, n, ll);
    wr, zPend, order := wr0, zPend0, order0;
    assert yy[0] == order0[0] by { assert yy[..n][0] == yy[0]; }
    if yy[0] == ll {
      zPend := zPend + 1;
    } else {
      if zPend > 0 {
        wr := PutRun(mtfv, mtfFreq, wr, zPend, n + 2);
        zPend := 0;
      }
      assert mtfv[..wr] == written + Flush(zPend0) by { FlushNothing(); }
      order := Front(order0, IndexOf(order0, ll));
      var j := ShiftToFront(yy, ll, n);
      Put(mtfv, mtfFreq, wr, j + 1, n + 2);
      wr := wr + 1;
    }
  }

  lemma FlushNothing()
    ensures Flush(0) == []
  {
  }

  /** After the last byte: the pending run, and the end-of-block symbol. */
  method EndColumn(mtfv: array<int>, mtfFreq: array<int>, wr0: int, zPend: int, nInUse: int, ghost total: seq<int>,
      ghost order: seq<byte>)
    returns (nMTF: int)
    requires mtfv != mtfFreq && 0 <= wr0 && 0 <= zPend && wr0 + zPend < mtfv.Length
    requires Coding(total, mtfv[..wr0], zPend, order, nInUse, []) && Tallied(mtfv[..], wr0, mtfFreq[..], nInUse + 2)
    modifies mtfv, mtfFreq
    ensures 0 < nMTF <= wr0 + zPend + 1 && mtfv[..nMTF] == total + [nInUse + 1]
    ensures Tallied(mtfv[..], nMTF, mtfFreq[..], nInUse + 2)
  {
    CodingEnds(total, mtfv[..wr0], zPend, order, nInUse);
    CodingList(total, mtfv[..wr0], zPend, order, nInUse, []);
    FlushNothing();
    hide Coding, Tallied, Flush, LowFirst;
    var wr := wr0;
    if zPend > 0 {
      wr := PutRun(mtfv, mtfFreq, wr, zPend, nInUse + 2);
    }
    Put(mtfv, mtfFreq, wr, nInUse + 1, nInUse + 2);
    nMTF := wr + 1;
  }

  method FirstOrder(nInUse: int) returns (yy: array<byte>)
    requires 0 <= nInUse <= 256
    ensures fresh(yy) && yy.Length == 256 && yy[..nInUse] == Identity()[..nInUse]
  {
    yy := new byte[256];
    for i := 0 to nInUse
      modifies yy
      invariant forall k :: 0 <= k < i ==> yy[k] as int == k
    {
      yy[i] := i;
    }
  }

  lemma NothingTallied(mtfv: seq<int>, mtfFreq: seq<int>, n: int)
    requires 0 <= n <= |mtfFreq| && forall v :: 0 <= v < n ==> mtfFreq[v] == 0
    ensures Tallied(mtfv, 0, mtfFreq, n)
  {
    assert mtfv[..0] == [];
  }

  /** The encoding loop. */
  method EncodeColumn(ptr: array<int>, block: array<byte>, nblock: int, unseqToSeq: array<byte>, nInUse: int,
                      mtfv: array<int>, mtfFreq: array<int>, ghost u: seq<bool>)
    returns (nMTF: int)
    requires 0 < nblock <= ptr.Length && nblock <= block.Length && nblock < mtfv.Length && mtfv != mtfFreq
             && mtfv != ptr && mtfFreq != ptr
    requires |u| == 256 == unseqToSeq.Length && mtfFreq.Length == 258 && IsPerm(ptr[..nblock], nblock)
    requires block as object != mtfv && block as object != mtfFreq && unseqToSeq as object != mtfv
             && unseqToSeq as object != mtfFreq
    requires forall i :: 0 <= i < nblock ==> u[block[i]]
    requires nInUse == |Used(u, 256)| && forall c :: 0 <= c < 256 && u[c] ==> unseqToSeq[c] as int == Rank(u, c)
    requires forall v :: 0 <= v < nInUse + 2 ==> mtfFreq[v] == 0
    modifies mtfv, mtfFreq
    ensures 0 < nMTF <= nblock + 1
    ensures var l := LastColumn(block[..nblock], ptr[..nblock]);
            (forall k :: 0 <= k < |l| ==> u[l[k]]) && mtfv[..nMTF] == BlockSymbols(u, l)
    ensures Tallied(mtfv[..], nMTF, mtfFreq[..], nInUse + 2)
  {
    hide Coding, Tallied, Symbols, Sequenced, LastColumn, Used, BlockSymbols, Identity, IsPerm, Within, Under;
    ghost var b, p := block[..nblock], ptr[..nblock];
    ghost var l := LastColumn(b, p);
    ColumnAt(b, p, u, 0);
    ghost var col, order := Sequenced(u, l), Identity();
    CodingStarts(u, l);
    ghost var total := Symbols(0, order, col);
    var yy := FirstOrder(nInUse);
    var wr, zPend := 0, 0;
    NothingTallied(mtfv[..], mtfFreq[..], nInUse + 2);
    assert mtfv[..0] == [] && col[0..] == col;
    for i := 0 to nblock
      modifies yy, mtfv, mtfFreq
      invariant 0 <= wr && 0 <= zPend && wr + zPend <= i && |order| == 256
      invariant Coding(total, mtfv[..wr], zPend, order, nInUse, col[i..])
      invariant yy[..nInUse] == order[..nInUse] && Tallied(mtfv[..], wr, mtfFreq[..], nInUse + 2)
    {
      ColumnAt(b, p, u, i);
      var j := ptr[i] - 1;
      if j < 0 { j := j + nblock; }
      var ll := unseqToSeq[block[j]];
      wr, zPend, order := EncodeByte(yy, ll, mtfv, mtfFreq, wr, zPend, nInUse, total, order, col[i..]);
      assert col[i..][1..] == col[i + 1..];
    }
    assert col[nblock..] == [];
    nMTF := EndColumn(mtfv, mtfFreq, wr, zPend, nInUse, total, order);
  }

  /**
   * `generateMTFValues`. The source writes `mtfv` over the memory of `ptr`; the invariant `wr + zPend <= i` says that
   * every entry written lies below the entries still to be read.
   */
  method GenerateMtfValues(ptr: array<int>, block: array<byte>, nblock: int, inUse: array<bool>, mtfv: array<int>,
      mtfFreq: array<int>)
    returns (nMTF: int, nInUse: int)
    requires 0 < nblock <= ptr.Length && nblock <= block.Length && nblock < mtfv.Length && mtfv != mtfFreq
             && mtfv != ptr && mtfFreq != ptr
    requires inUse.Length == 256 && mtfFreq.Length == 258 && IsPerm(ptr[..nblock], nblock)
    requires forall i :: 0 <= i < nblock ==> inUse[block[i]]
    requires block as object != mtfv && block as object != mtfFreq && inUse as object != mtfv
             && inUse as object != mtfFreq
    modifies mtfv, mtfFreq
    ensures 0 < nMTF <= nblock + 1 && nInUse == |Used(inUse[..], 256)|
    ensures var l := LastColumn(block[..nblock], ptr[..nblock]);
            (forall k :: 0 <= k < |l| ==> inUse[l[k]]) && mtfv[..nMTF] == BlockSymbols(inUse[..], l)
    ensures Tallied(mtfv[..], nMTF, mtfFreq[..], nInUse + 2)
  {
    var unseqToSeq := new byte[256];
    nInUse := MakeMapsE(inUse, unseqToSeq);
    var eob := nInUse + 1;
    for i := 0 to eob + 1
      modifies mtfFreq
      invariant forall v :: 0 <= v < i ==> mtfFreq[v] == 0
    {
      mtfFreq[i] := 0;
    }
    nMTF := EncodeColumn(ptr, block, nblock, unseqToSeq, nInUse, mtfv, mtfFreq, inUse[..]);
  }
}
