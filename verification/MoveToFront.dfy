/**
 * Move-to-front coding with run-length coded zeros: what the encoder writes and the decoder reads, symbol by symbol.
 */
module MoveToFront {
  import opened Base

  const BZ_RUNA := 0
  const BZ_RUNB := 1

  // ------------------------------------------------------------ runs as bijective base-2 numbers

  /** The digits written for `y + 1` pending zeros, least significant first. */
  function RunDigits(y: nat): (ds: seq<int>)
    ensures ds != [] && forall k :: 0 <= k < |ds| ==> ds[k] == BZ_RUNA || ds[k] == BZ_RUNB
  {
    [y % 2] + if y < 2 then [] else RunDigits((y - 2) / 2)
  }

  /** The run length a digit string stands for: digits count one or two, doubling in value. */
  function RunValue(ds: seq<int>): int {
    if ds == [] then 0 else ds[0] + 1 + 2 * RunValue(ds[1..])
  }

  ghost predicate AllRun(ds: seq<int>) {
    forall k :: 0 <= k < |ds| ==> ds[k] == BZ_RUNA || ds[k] == BZ_RUNB
  }

  lemma {:induction false} RunValueOfDigits(y: nat)
    ensures RunValue(RunDigits(y)) == y + 1
    ensures Pow2(|RunDigits(y)|) <= y + 2
  {
    if y >= 2 {
      RunValueOfDigits((y - 2) / 2);
      assert RunDigits(y)[1..] == RunDigits((y - 2) / 2);
    } else {
      assert RunDigits(y)[1..] == [] && Pow2(0) == 1;
    }
  }

  lemma {:induction false} RunDigitsOfValue(ds: seq<int>)
    requires AllRun(ds) && ds != []
    ensures RunValue(ds) >= 1 && RunDigits(RunValue(ds) - 1) == ds
  {
    if |ds| > 1 {
      RunDigitsOfValue(ds[1..]);
      assert ds == [ds[0]] + ds[1..];
    } else {
      assert RunValue(ds[1..]) == 0;
      assert ds == [ds[0]];
    }
  }

  // ------------------------------------------------------------ the move-to-front list

  /** The list after its entry `j` has been moved to the front. */
  function Front(order: seq<byte>, j: int): (r: seq<byte>)
    requires 0 <= j < |order|
    ensures |r| == |order|
  {
    [order[j]] + order[..j] + order[j + 1..]
  }

  function IndexOf(order: seq<byte>, c: byte): (j: int)
    requires c in order
    ensures 0 <= j < |order| && order[j] == c && c !in order[..j]
  {
    if order[0] == c then 0 else 1 + IndexOf(order[1..], c)
  }

  /** Every byte of `rest` is on the list. */
  ghost predicate Within(rest: seq<byte>, order: seq<byte>) {
    forall i :: 0 <= i < |rest| ==> rest[i] in order
  }

  ghost predicate Under(rest: seq<byte>, n: int) {
    forall i :: 0 <= i < |rest| ==> rest[i] < n
  }

  lemma UnderTail(rest: seq<byte>, n: int)
    requires rest != [] && Under(rest, n)
    ensures rest[0] < n && Under(rest[1..], n)
  {
  }

  lemma FrontMember(order: seq<byte>, j: int, c: byte)
    requires 0 <= j < |order|
    ensures c in Front(order, j) <==> c in order
  {
    assert order == order[..j] + [order[j]] + order[j + 1..];
  }

  lemma WithinTail(rest: seq<byte>, order: seq<byte>)
    requires rest != [] && Within(rest, order)
    ensures rest[0] in order && Within(rest[1..], order)
    ensures Within(rest[1..], Front(order, IndexOf(order, rest[0])))
  {
    hide Front, IndexOf;
    forall i | 0 <= i < |rest[1..]| ensures rest[1..][i] in order
        && rest[1..][i] in Front(order, IndexOf(order, rest[0])) {
      assert rest[1..][i] == rest[i + 1];
      FrontMember(order, IndexOf(order, rest[0]), rest[i + 1]);
    }
  }

  /** The symbols for pending zeros: none, or the digits of the run. */
  function Flush(zPend: nat): (s: seq<int>)
    ensures AllRun(s)
  {
    if zPend == 0 then [] else RunDigits(zPend - 1)
  }

  /** What `generateMTFValues` still has to write, with `zPend` zeros pending, for the rest of the column. */
  function Symbols(zPend: nat, order: seq<byte>, rest: seq<byte>): (s: seq<int>)
    requires order != [] && Within(rest, order)
    decreases |rest|
  {
    if rest == [] then Flush(zPend)
    else
      WithinTail(rest, order);
      if rest[0] == order[0] then Symbols(zPend + 1, order, rest[1..])
      else
        var j := IndexOf(order, rest[0]);
        Flush(zPend) + [j + 1] + Symbols(0, Front(order, j), rest[1..])
  }

  /** There are never more symbols than bytes: the source overwrites its input with its output. */
  lemma {:induction false} SymbolsBound(zPend: nat, order: seq<byte>, rest: seq<byte>)
    requires order != [] && Within(rest, order)
    ensures |Symbols(zPend, order, rest)| <= zPend + |rest|
    ensures forall k :: 0 <= k < |Symbols(zPend, order, rest)| ==> 0 <= Symbols(zPend, order, rest)[k] <= |order|
    decreases |rest|
  {
    hide Within, Front, IndexOf, Flush;
    FlushBound(zPend);
    if rest != [] {
      WithinTail(rest, order);
      if rest[0] == order[0] {
        SymbolsBound(zPend + 1, order, rest[1..]);
      } else {
        SymbolsBound(0, Front(order, IndexOf(order, rest[0])), rest[1..]);
      }
    }
  }

  lemma FlushBound(zPend: nat)
    ensures |Flush(zPend)| <= zPend && (zPend > 0 ==> Pow2(|Flush(zPend)|) <= zPend + 1)
  {
    if zPend > 0 {
      RunValueOfDigits(zPend - 1);
      PowAbove(|RunDigits(zPend - 1)|);
    }
  }

  lemma {:induction false} PowAbove(n: nat)
    ensures Pow2(n) >= n + 1
  {
    if n > 0 {
      PowAbove(n - 1);
    }
  }

  // ------------------------------------------------------------ the decoder, symbol by symbol

  /** Where the decoder stands between two symbols: its list, the bytes so far, and the run being summed up. */
  datatype MtfState = MtfState(order: seq<byte>, column: seq<byte>, inRun: bool, es: int, N: int)

  datatype MtfResult = Go(st: MtfState) | Done(column: seq<byte>) | Bad

  /** `es` copies of the front byte. */
  function Copies(c: byte, n: nat): (s: seq<byte>)
    ensures |s| == n
  {
    seq(n, _ => c)
  }

  /** One RUNA/RUNB digit added to the run. */
  function AddDigit(st: MtfState, sym: int): MtfResult {
    if st.N >= 2 * 1024 * 1024 then Bad
    else Go(st.(es := st.es + (sym + 1) * st.N, N := st.N * 2))
  }

  /** A symbol at the top of the decoding loop. */
  function TopSymbol(st: MtfState, sym: int, eob: int, seqToUnseq: seq<byte>, nblockMAX: int): MtfResult {
    if sym == eob then Done(st.column)
    else if sym == BZ_RUNA || sym == BZ_RUNB then AddDigit(st.(inRun := true, es := -1, N := 1), sym)
    else if |st.column| >= nblockMAX || !(1 <= sym <= |st.order|) || st.order[sym - 1] >= |seqToUnseq| then Bad
    else Go(MtfState(Front(st.order, sym - 1), st.column + [seqToUnseq[st.order[sym - 1]]], false, 0, 0))
  }

  /** A symbol wherever the decoder stands: a symbol that is no digit first closes the run. */
  function MtfSymbol(st: MtfState, sym: int, eob: int, seqToUnseq: seq<byte>, nblockMAX: int): MtfResult {
    if !st.inRun then TopSymbol(st, sym, eob, seqToUnseq, nblockMAX)
    else if sym == BZ_RUNA || sym == BZ_RUNB then AddDigit(st, sym)
    else if st.order == [] || st.order[0] >= |seqToUnseq| || st.es < -1
        || |st.column| + (st.es + 1) > nblockMAX then Bad
    else
      var run := Copies(seqToUnseq[st.order[0]], st.es + 1);
      TopSymbol(MtfState(st.order, st.column + run, false, 0, 0), sym, eob, seqToUnseq, nblockMAX)
  }

  function Feed(st: MtfState, syms: seq<int>, eob: int, seqToUnseq: seq<byte>, nblockMAX: int): MtfResult
    decreases |syms|
  {
    if syms == [] then Go(st)
    else
      var r := MtfSymbol(st, syms[0], eob, seqToUnseq, nblockMAX);
      if r.Go? then Feed(r.st, syms[1..], eob, seqToUnseq, nblockMAX) else r
  }

  lemma {:induction false} FeedAppend(st: MtfState, s: seq<int>, t: seq<int>, eob: int, seqToUnseq: seq<byte>,
      nblockMAX: int)
    ensures Feed(st, s + t, eob, seqToUnseq, nblockMAX) ==
            var r := Feed(st, s, eob, seqToUnseq, nblockMAX);
            if r.Go? then Feed(r.st, t, eob, seqToUnseq, nblockMAX) else r
    decreases |s|
  {
    if s == [] {
      assert s + t == t;
    } else {
      assert (s + t)[1..] == s[1..] + t;
      var r := MtfSymbol(st, s[0], eob, seqToUnseq, nblockMAX);
      if r.Go? {
        FeedAppend(r.st, s[1..], t, eob, seqToUnseq, nblockMAX);
      }
    }
  }

  /** Digits accumulate: N doubles, es gains N times the value of the digits. */
  lemma {:induction false} FeedDigits(st: MtfState, ds: seq<int>, eob: int, seqToUnseq: seq<byte>, nblockMAX: int)
    requires AllRun(ds) && st.inRun && st.N >= 1 && eob >= 2 && (ds != [] ==> st.N * Pow2(|ds| - 1) < 2 * 1024 * 1024)
    ensures Feed(st, ds, eob, seqToUnseq, nblockMAX) ==
            Go(st.(es := st.es + st.N * RunValue(ds), N := st.N * Pow2(|ds|)))
    decreases |ds|
  {
    if ds == [] {
      assert st.N * Pow2(0) == st.N;
    } else {
      DigitRoom(st.N, |ds| - 1);
      var st' := st.(es := st.es + (ds[0] + 1) * st.N, N := st.N * 2);
      FeedDigits(st', ds[1..], eob, seqToUnseq, nblockMAX);
      DigitSums(st.es, st.N, ds[0], RunValue(ds[1..]), Pow2(|ds| - 1));
    }
  }

  lemma DigitRoom(n: int, k: nat)
    requires n >= 1 && n * Pow2(k) < 2 * 1024 * 1024
    ensures n < 2 * 1024 * 1024 && (k >= 1 ==> n * 2 * Pow2(k - 1) < 2 * 1024 * 1024)
  {
    LeadingDigit(1, 0, Pow2(k), 0, n);
    assert k >= 1 ==> n * 2 * Pow2(k - 1) == n * (2 * Pow2(k - 1));
  }

  lemma DigitSums(es: int, n: int, d: int, v: int, p: int)
    ensures es + (d + 1) * n + n * 2 * v == es + n * (d + 1 + 2 * v)
    ensures n * 2 * p == n * (2 * p)
  {
  }

  // ------------------------------------------------------------ decoding what was written

  /** The bytes in use stand at the front of the list, in some order. */
  ghost predicate LowFirst(order: seq<byte>, n: int) {
    && 1 <= n <= |order|
    && forall k :: 0 <= k < |order| ==> (order[k] < n <==> k < n)
  }

  lemma LowFirstMoves(order: seq<byte>, n: int, c: byte)
    requires LowFirst(order, n) && c < n && c in order
    ensures IndexOf(order, c) < n && LowFirst(Front(order, IndexOf(order, c)), n)
  {
  }

  function MapBack(seqToUnseq: seq<byte>, s: seq<byte>): (r: seq<byte>)
    requires Under(s, |seqToUnseq|)
    ensures |r| == |s|
  {
    seq(|s|, i requires 0 <= i < |s| && s[i] < |seqToUnseq| => seqToUnseq[s[i]])
  }

  /** The decoder just before the run of pending zeros, if any, is closed. */
  function AfterFlush(order: seq<byte>, column: seq<byte>, zPend: nat): MtfState {
    if zPend == 0 then MtfState(order, column, false, 0, 0)
    else MtfState(order, column, true, zPend - 1, Pow2(|Flush(zPend)|))
  }

  lemma FeedFlush(order: seq<byte>, column: seq<byte>, zPend: nat, eob: int, seqToUnseq: seq<byte>, nblockMAX: int)
    requires eob >= 2 && zPend <= 900000
    ensures Feed(MtfState(order, column, false, 0, 0), Flush(zPend), eob, seqToUnseq, nblockMAX) ==
            Go(AfterFlush(order, column, zPend))
  {
    if zPend > 0 {
      var ds := RunDigits(zPend - 1);
      RunValueOfDigits(zPend - 1);
      DigitsFew(|ds|);
      var st0 := MtfState(order, column, true, -1, 1);
      FeedDigits(st0, ds, eob, seqToUnseq, nblockMAX);
      assert MtfSymbol(MtfState(order, column, false, 0, 0), ds[0], eob, seqToUnseq, nblockMAX)
          == MtfSymbol(st0, ds[0], eob, seqToUnseq, nblockMAX);
    }
  }

  lemma DigitsFew(n: nat)
    requires n >= 1 && Pow2(n) <= 900001
    ensures Pow2(n - 1) < 2 * 1024 * 1024
  {
    Pow2Monotone(n - 1, n);
  }

  /** A symbol that closes the pending run acts as it would after the run's bytes. */
  lemma CloseRun(order: seq<byte>, column: seq<byte>, zPend: nat, sym: int, eob: int, seqToUnseq: seq<byte>,
      nblockMAX: int)
    requires order != [] && (zPend > 0 ==> order[0] < |seqToUnseq|) && |column| + zPend <= nblockMAX
    requires sym != BZ_RUNA && sym != BZ_RUNB
    ensures MtfSymbol(AfterFlush(order, column, zPend), sym, eob, seqToUnseq, nblockMAX) ==
            TopSymbol(MtfState(order, column + (if zPend > 0 then Copies(seqToUnseq[order[0]], zPend) else []), false,
                0, 0),
                      sym, eob, seqToUnseq, nblockMAX)
  {
    assert column + [] == column;
  }

  function Pending(order: seq<byte>, zPend: nat, seqToUnseq: seq<byte>): seq<byte>
    requires order != [] && (zPend > 0 ==> order[0] < |seqToUnseq|)
  {
    if zPend > 0 then Copies(seqToUnseq[order[0]], zPend) else []
  }

  /**
   * The MTF stage round trip: the decoder, fed what the encoder writes for a column followed by the end-of-block
   * symbol, stops with exactly that column.
   */
  lemma {:induction false} FeedSymbols(order: seq<byte>, column: seq<byte>, zPend: nat, rest: seq<byte>,
      seqToUnseq: seq<byte>, nblockMAX: int)
    requires LowFirst(order, |seqToUnseq|) && Within(rest, order) && Under(rest, |seqToUnseq|)
    requires |column| + zPend + |rest| <= nblockMAX <= 900000
    ensures Feed(MtfState(order, column, false, 0, 0), Symbols(zPend, order, rest) + [|seqToUnseq| + 1],
                 |seqToUnseq| + 1, seqToUnseq, nblockMAX) ==
            Done(column + Pending(order, zPend, seqToUnseq) + MapBack(seqToUnseq, rest))
    decreases |rest|
  {
    var n, eob := |seqToUnseq|, |seqToUnseq| + 1;
    var st := MtfState(order, column, false, 0, 0);
    if rest == [] {
      FeedAppend(st, Flush(zPend), [eob], eob, seqToUnseq, nblockMAX);
      FeedFlush(order, column, zPend, eob, seqToUnseq, nblockMAX);
      CloseRun(order, column, zPend, eob, eob, seqToUnseq, nblockMAX);
    } else {
      WithinTail(rest, order);
      UnderTail(rest, n);
      if rest[0] == order[0] {
        FeedZero(order, column, zPend, rest, seqToUnseq, nblockMAX);
      } else {
        FeedMove(order, column, zPend, rest, seqToUnseq, nblockMAX);
      }
    }
  }

  lemma FeedZero(order: seq<byte>, column: seq<byte>, zPend: nat, rest: seq<byte>, seqToUnseq: seq<byte>,
      nblockMAX: int)
    requires LowFirst(order, |seqToUnseq|) && Within(rest, order) && Under(rest, |seqToUnseq|)
    requires |column| + zPend + |rest| <= nblockMAX <= 900000 && rest != [] && rest[0] == order[0]
    ensures Feed(MtfState(order, column, false, 0, 0), Symbols(zPend, order, rest) + [|seqToUnseq| + 1],
                 |seqToUnseq| + 1, seqToUnseq, nblockMAX) ==
            Done(column + Pending(order, zPend, seqToUnseq) + MapBack(seqToUnseq, rest))
    decreases |rest|, 0
  {
    hide Within, Under, Feed, Front, IndexOf, Flush;
    WithinTail(rest, order);
    UnderTail(rest, |seqToUnseq|);
    FeedSymbols(order, column, zPend + 1, rest[1..], seqToUnseq, nblockMAX);
    assert Symbols(zPend, order, rest) == Symbols(zPend + 1, order, rest[1..]);
    var run, more := Pending(order, zPend, seqToUnseq), Pending(order, zPend + 1, seqToUnseq);
    MapBackFirst(seqToUnseq, rest);
    assert more == run + [seqToUnseq[order[0]]];
    hide MapBack, Symbols, Pending;
    var tail := MapBack(seqToUnseq, rest[1..]);
    assert column + (run + [seqToUnseq[order[0]]]) + tail == column + run + ([seqToUnseq[order[0]]] + tail);
  }

  /** Feeding a flushed run and then a symbol that is no digit. */
  lemma FeedPastFlush(order: seq<byte>, column: seq<byte>, zPend: nat, sym: int, tail: seq<int>, st: MtfState,
                      eob: int, seqToUnseq: seq<byte>, nblockMAX: int)
    requires eob >= 2 && zPend <= 900000 && order != [] && (zPend > 0 ==> order[0] < |seqToUnseq|)
    requires sym >= 2 && |column| + zPend <= nblockMAX
    requires TopSymbol(MtfState(order, column + Pending(order, zPend, seqToUnseq), false, 0, 0), sym, eob, seqToUnseq,
             nblockMAX) == Go(st)
    ensures Feed(MtfState(order, column, false, 0, 0), Flush(zPend) + ([sym] + tail), eob, seqToUnseq, nblockMAX) ==
            Feed(st, tail, eob, seqToUnseq, nblockMAX)
  {
    var st0 := MtfState(order, column, false, 0, 0);
    FeedAppend(st0, Flush(zPend), [sym] + tail, eob, seqToUnseq, nblockMAX);
    FeedFlush(order, column, zPend, eob, seqToUnseq, nblockMAX);
    CloseRun(order, column, zPend, sym, eob, seqToUnseq, nblockMAX);
    assert ([sym] + tail)[1..] == tail;
  }

  lemma SymbolsMove(zPend: nat, order: seq<byte>, rest: seq<byte>, eob: int)
    requires order != [] && rest != [] && rest[0] != order[0] && Within(rest, order)
    ensures rest[0] in order
    ensures var j := IndexOf(order, rest[0]);
            && j >= 1 && Within(rest[1..], Front(order, j))
            && Symbols(zPend, order, rest) + [eob] == Flush(zPend)
                + ([j + 1] + (Symbols(0, Front(order, j), rest[1..]) + [eob]))
  {
    WithinTail(rest, order);
    hide Front, Flush, IndexOf, Within;
    var j := IndexOf(order, rest[0]);
    var tail := Symbols(0, Front(order, j), rest[1..]);
    assert Symbols(zPend, order, rest) == Flush(zPend) + [j + 1] + tail;
    Associate(Flush(zPend), j + 1, tail, eob);
  }

  lemma Associate(a: seq<int>, x: int, t: seq<int>, e: int)
    ensures a + [x] + t + [e] == a + ([x] + (t + [e]))
  {
  }

  lemma TopMoves(order: seq<byte>, column: seq<byte>, j: int, eob: int, seqToUnseq: seq<byte>, nblockMAX: int)
    requires 1 <= j < |order| && j + 1 != eob && |column| < nblockMAX && order[j] < |seqToUnseq|
    ensures TopSymbol(MtfState(order, column, false, 0, 0), j + 1, eob, seqToUnseq, nblockMAX) ==
            Go(MtfState(Front(order, j), column + [seqToUnseq[order[j]]], false, 0, 0))
  {
  }

  lemma MapBackFirst(seqToUnseq: seq<byte>, s: seq<byte>)
    requires s != [] && Under(s, |seqToUnseq|)
    ensures s[0] < |seqToUnseq| && Under(s[1..], |seqToUnseq|)
    ensures MapBack(seqToUnseq, s) == [seqToUnseq[s[0]]] + MapBack(seqToUnseq, s[1..])
  {
  }

  lemma FeedMove(order: seq<byte>, column: seq<byte>, zPend: nat, rest: seq<byte>, seqToUnseq: seq<byte>,
      nblockMAX: int)
    requires LowFirst(order, |seqToUnseq|) && Within(rest, order) && Under(rest, |seqToUnseq|)
    requires |column| + zPend + |rest| <= nblockMAX <= 900000 && rest != [] && rest[0] != order[0]
    ensures Feed(MtfState(order, column, false, 0, 0), Symbols(zPend, order, rest) + [|seqToUnseq| + 1],
                 |seqToUnseq| + 1, seqToUnseq, nblockMAX) ==
            Done(column + Pending(order, zPend, seqToUnseq) + MapBack(seqToUnseq, rest))
    decreases |rest|, 0
  {
    hide Within, Under, MapBack, Symbols, Feed;
    var eob := |seqToUnseq| + 1;
    WithinTail(rest, order);
    UnderTail(rest, |seqToUnseq|);
    var j := IndexOf(order, rest[0]);
    LowFirstMoves(order, |seqToUnseq|, rest[0]);
    SymbolsMove(zPend, order, rest, eob);
    MapBackFirst(seqToUnseq, rest);
    hide Within, Under, MapBack, Symbols, Feed, Front, Flush, TopSymbol;
    var run, c := Pending(order, zPend, seqToUnseq), [seqToUnseq[rest[0]]];
    assert |run| == zPend && (zPend > 0 ==> order[0] < |seqToUnseq|) && Pending(Front(order, j), 0, seqToUnseq) == [];
    TopMoves(order, column + run, j, eob, seqToUnseq, nblockMAX);
    hide *;
    FeedPastFlush(order, column, zPend, j + 1, Symbols(0, Front(order, j), rest[1..]) + [eob],
                  MtfState(Front(order, j), column + run + c, false, 0, 0), eob, seqToUnseq, nblockMAX);
    FeedSymbols(Front(order, j), column + run + c, 0, rest[1..], seqToUnseq, nblockMAX);
    assert column + run + c + [] + MapBack(seqToUnseq, rest[1..]) == column + run
        + (c + MapBack(seqToUnseq, rest[1..]));
  }
}
