/**
 * The symbols of a block as `BZ2_decompress` reads them: code tables in limit, base and perm arrays, the
 * move-to-front list in its two-level array, the last column growing in place. It takes the same steps as the state
 * machine, which speaks of a plain list and of tables as functions.
 */
module SymbolReaders {
  import opened Base
  import opened Bits
  import opened Counting
  import opened PrefixCode
  import opened MoveToFront
  import opened GenerateMtf
  import opened TwoLevelMtf
  import opened BlockFormat
  import opened Decoder

  // ------------------------------------------------------------ the code tables

  /** `limit`, `base` and `perm` of one table, and its shortest length. */
  datatype CodeTables = CodeTables(limit: seq<int>, base: seq<int>, perm: seq<int>, minLen: int)

  ghost predicate TablesOf(c: CodeTables, len: seq<byte>)
    requires Lengths(len)
  {
    LengthBounds(len);
    && |c.limit| == |c.base| == |c.perm| == BZ_MAX_ALPHA_SIZE
    && c.minLen == MinLen(len) && c.perm[..|len|] == TVector(len)
    && forall n :: 0 <= n < BZ_MAX_CODE_LEN ==> LimitAndBase(c, len, MinLen(len), MaxLen(len), n)
  }

  ghost predicate LimitAndBase(c: CodeTables, len: seq<byte>, lo: nat, hi: nat, n: int)
    requires |c.limit| == |c.base| == BZ_MAX_ALPHA_SIZE && 0 <= n < BZ_MAX_CODE_LEN
  {
    c.limit[n] == Limit(len, lo, hi, n) && c.base[n] == BaseOf(len, lo, hi, n)
  }

  /** The tables for one set of lengths: its shortest and longest, then `BZ2_hbCreateDecodeTables`. */
  method BuildTable(len: seq<byte>) returns (c: CodeTables)
    requires Lengths(len)
    ensures TablesOf(c, len)
  {
    var minLen, maxLen := 32, 0;
    for i := 0 to |len|
      invariant minLen == MinLen(len[..i]) && maxLen == MaxLen(len[..i])
    {
      assert len[..i + 1][..i] == len[..i];
      if len[i] as int > maxLen { maxLen := len[i] as int; }
      if (len[i] as int) < minLen { minLen := len[i] as int; }
    }
    assert len[..|len|] == len;
    LengthBounds(len);
    var length := new byte[|len|](i requires 0 <= i < |len| => len[i]);
    assert length[..] == len == length[..|len|];
    hide MinLen, MaxLen, TVector, Limit, BaseOf;
    var limit, base := new int[BZ_MAX_ALPHA_SIZE], new int[BZ_MAX_ALPHA_SIZE];
    var perm := new int[BZ_MAX_ALPHA_SIZE];
    CreateDecodeTables(limit, base, perm, length, minLen, maxLen, |len|);
    c := CodeTables(limit[..], base[..], perm[..], minLen);
    assert forall n :: 0 <= n < BZ_MAX_CODE_LEN ==> LimitAndBase(c, len, minLen, maxLen, n);
  }

  ghost predicate EveryTable(c: seq<CodeTables>, lens: seq<seq<byte>>) {
    |c| <= |lens| && forall t :: 0 <= t < |c| ==> Lengths(lens[t]) && TablesOf(c[t], lens[t])
  }

  lemma GroupTables(c: seq<CodeTables>, lens: seq<seq<byte>>)
    requires EveryTable(c, lens)
    ensures forall t :: 0 <= t < |c| ==> c[t].minLen == MinLen(lens[t]) && 1 <= c[t].minLen <= 20
  {
    forall t | 0 <= t < |c| ensures c[t].minLen == MinLen(lens[t]) && 1 <= c[t].minLen <= 20 {
      LengthBounds(lens[t]);
      assert TablesOf(c[t], lens[t]);
    }
  }

  method BuildTables(lens: seq<seq<byte>>) returns (c: seq<CodeTables>)
    requires forall t :: 0 <= t < |lens| ==> Lengths(lens[t])
    ensures |c| == |lens| && EveryTable(c, lens)
  {
    c := [];
    hide TablesOf, Lengths;
    for t := 0 to |lens|
      invariant |c| == t && EveryTable(c, lens)
    {
      var table := BuildTable(lens[t]);
      c := c + [table];
    }
  }

  // ------------------------------------------------------------ the list and the column

  lemma IdentityLow(n: int)
    requires 0 < n <= 256
    ensures LowFirst(Identity(), n)
  {
  }

  lemma FrontLowFirst(order: seq<byte>, n: int, j: int)
    requires LowFirst(order, n) && 0 <= j < n
    ensures LowFirst(Front(order, j), n)
  {
  }

  lemma LabelAfter(h: Header, inUse: seq<bool>, t: Tables, st: MtfState, groupNo: int, groupPos: int)
    requires GoodHeader(h) && GoodMap(inUse) && GoodTables(t, AlphaSize(inUse)) && AtSymbol(st, 256, 100000 * h.bs)
    requires 0 <= groupNo < |t.selectors| && 0 <= groupPos < BZ_G_SIZE
    ensures var (g, p) := if groupPos == 0 then (groupNo + 1, BZ_G_SIZE - 1) else (groupNo, groupPos - 1);
            var d := NextSymbol(h, inUse, t, st, groupNo, groupPos);
            && Ok(d)
            && (g >= |t.selectors| ==> d == Failed(BZ_DATA_ERROR))
            && (g < |t.selectors| ==> MinLen(t.lens[t.selectors[g]]) >= 1)
            && (g < |t.selectors| ==> d == Symbol(h, inUse, t, st, g, p, MinLen(t.lens[t.selectors[g]]), 0, true))
  {
    if groupPos > 0 || groupNo + 1 < |t.selectors| {
      LengthBounds(t.lens[t.selectors[if groupPos == 0 then groupNo + 1 else groupNo]]);
    }
  }

  lemma StartsAt(h: Header, inUse: seq<bool>, t: Tables)
    requires GoodHeader(h) && GoodMap(inUse) && GoodTables(t, AlphaSize(inUse))
    ensures MinLen(t.lens[t.selectors[0]]) >= 1
    ensures StartSymbols(h, inUse, t) == Symbol(h, inUse, t, MtfState(Identity(), [], false, 0, 0), 0, BZ_G_SIZE - 1,
            MinLen(t.lens[t.selectors[0]]), 0, true)
  {
    LengthBounds(t.lens[t.selectors[0]]);
  }

  datatype Fate = GoesOn | Ends | Breaks

  class SymbolReader {
    const h: Header
    const inUse: seq<bool>
    const t: Tables
    const seqToUnseq: seq<byte>
    const tables: seq<CodeTables>
    const mtfa: array<byte>
    const mtfbase: array<int>
    const tt: array<byte>
    var nblock: int
    var inRun: bool
    var es: int
    var N: int
    var groupNo: int
    var groupPos: int
    var zn: nat
    var zvec: int
    var first: bool
    ghost var order: seq<byte>

    /** The tables are made, the list is the identity, the column empty, and the first group chosen. */
    constructor (h: Header, inUse: seq<bool>, t: Tables)
      requires GoodHeader(h) && GoodMap(inUse) && GoodTables(t, AlphaSize(inUse))
      ensures Valid() && At() == StartSymbols(h, inUse, t) && fresh(mtfa) && fresh(mtfbase) && fresh(tt)
    {
      var tables := BuildTables(t.lens);
      var g := t.selectors[0];
      LengthBounds(t.lens[g]);
      assert TablesOf(tables[g], t.lens[g]);
      IdentityLow(|Used(inUse, 256)|);
      StartsAt(h, inUse, t);
      hide MinLen, MaxLen, TVector, TablesOf, Identity, Used, Represents, LowFirst, StartSymbols, NextSymbol;
      var mtfa, mtfbase := new byte[MTFA_SIZE], new int[16];
      TwoLevelMtf.Init(mtfa, mtfbase);
      this.h, this.inUse, this.t, this.tables := h, inUse, t, tables;
      this.mtfa, this.mtfbase, tt := mtfa, mtfbase, new byte[100000 * h.bs];
      seqToUnseq := Used(inUse, 256);
      nblock, inRun, es, N := 0, false, 0, 0;
      groupNo, groupPos := 0, BZ_G_SIZE - 1;
      zn, zvec, first := tables[g].minLen, 0, true;
      order := Identity();
      new;
    }

    /** The list, the column and the run, as the machine has them. */
    ghost function St(): MtfState
      reads this`nblock, this`inRun, this`es, this`N, this`order, tt
      requires 0 <= nblock <= tt.Length
    {
      MtfState(order, tt[..nblock], inRun, if inRun then es else 0, if inRun then N else 0)
    }

    ghost predicate Lists()
      reads this`nblock, this`inRun, this`es, this`N, this`order, mtfa, mtfbase, tt
    {
      && GoodHeader(h) && GoodMap(inUse) && seqToUnseq == Used(inUse, 256)
      && mtfa.Length == MTFA_SIZE && mtfbase.Length == 16 && mtfa as object != mtfbase && mtfa != tt
      && tt.Length == 100000 * h.bs && 0 <= nblock <= tt.Length && tt as object != mtfbase
      && Represents(mtfa[..], mtfbase[..], order) && mtfbase[0] >= 1 && LowFirst(order, |seqToUnseq|)
      && (inRun ==> es >= -1 && N >= 1)
    }

    /** The end of a run: its bytes go into the column. */
    method EndRun() returns (ok: bool)
      requires Lists() && inRun
      modifies this, tt
      ensures Lists() && order == old(order) && groupNo == old(groupNo) && groupPos == old(groupPos)
      ensures ok <==> old(nblock) + (old(es) + 1) <= 100000 * h.bs
      ensures ok ==> St() == MtfState(order, old(tt[..nblock]) + Copies(seqToUnseq[order[0]], old(es) + 1), false, 0, 0)
    {
      inRun := false;
      es := es + 1;
      CellIs(mtfa[..], mtfbase[..], order, 0, 0);
      var uc := seqToUnseq[mtfa[mtfbase[0]]];
      ghost var col := tt[..nblock];
      ghost var n0, es0 := nblock, es;
      while es > 0
        invariant 0 <= es && nblock + es == n0 + es0 && n0 <= nblock <= tt.Length && !inRun
        invariant tt[..n0] == col && forall k :: n0 <= k < nblock ==> tt[k] == uc
        invariant order == old(order) && groupNo == old(groupNo) && groupPos == old(groupPos)
      {
        if nblock >= 100000 * h.bs { return false; }
        tt[nblock] := uc;
        nblock := nblock + 1;
        es := es - 1;
      }
      ok := true;
      assert tt[..nblock] == col + Copies(uc, es0);
    }

    /** A symbol at the top of the loop. */
    method Top(sym: int) returns (fate: Fate)
      requires Lists() && !inRun && 0 <= sym <= |seqToUnseq| + 1
      modifies this, mtfa, mtfbase, tt
      ensures Lists() && groupNo == old(groupNo) && groupPos == old(groupPos)
      ensures var r := TopSymbol(old(St()), sym, |seqToUnseq| + 1, seqToUnseq, 100000 * h.bs);
              match fate case GoesOn => r == Go(St()) case Ends => r == Done(tt[..nblock]) case Breaks => r.Bad?
    {
      if sym == |seqToUnseq| + 1 { return Ends; }
      if sym == BZ_RUNA || sym == BZ_RUNB {
        inRun, es, N := true, -1, 1;
        fate := Digit(sym);
      } else if nblock >= 100000 * h.bs {
        fate := Breaks;
      } else {
        ghost var (l, col) := (order, tt[..nblock]);
        FrontLowFirst(l, |seqToUnseq|, sym - 1);
        var uc := MoveToFrontOf(mtfa, mtfbase, sym - 1, l);
        order := Front(l, sym - 1);
        tt[nblock] := seqToUnseq[uc];
        nblock := nblock + 1;
        assert tt[..nblock] == col + [seqToUnseq[uc]];
        fate := GoesOn;
      }
    }

    /** A digit of a run. */
    method Digit(sym: int) returns (fate: Fate)
      requires Lists() && inRun && (sym == BZ_RUNA || sym == BZ_RUNB)
      modifies this
      ensures Lists() && groupNo == old(groupNo) && groupPos == old(groupPos)
      ensures fate.GoesOn? ==> AddDigit(old(St()), sym) == Go(St())
      ensures !fate.GoesOn? ==> fate.Breaks? && AddDigit(old(St()), sym).Bad?
    {
      if N >= 2 * 1024 * 1024 { return Breaks; }
      es := if sym == BZ_RUNA then es + (0 + 1) * N else es + (1 + 1) * N;
      N := N * 2;
      fate := GoesOn;
    }

    /** A symbol wherever the reader stands. The list never yields a number past the bytes in use. */
    method OnMtf(sym: int) returns (fate: Fate)
      requires Lists() && 0 <= sym <= |seqToUnseq| + 1
      modifies this, mtfa, mtfbase, tt
      ensures Lists() && groupNo == old(groupNo) && groupPos == old(groupPos)
      ensures var r := MtfSymbol(old(St()), sym, |seqToUnseq| + 1, seqToUnseq, 100000 * h.bs);
              match fate case GoesOn => r == Go(St()) case Ends => r == Done(tt[..nblock]) case Breaks => r.Bad?
    {
      if !inRun {
        fate := Top(sym);
      } else if sym == BZ_RUNA || sym == BZ_RUNB {
        fate := Digit(sym);
      } else {
        var ok := EndRun();
        if !ok { return Breaks; }
        fate := Top(sym);
      }
    }

    // ---------------------------------------------------------- the label of the symbol loop

    /** The state of the machine that this reader stands in. */
    ghost function At(): Dec
      reads this, tt
      requires 0 <= nblock <= tt.Length
    {
      Symbol(h, inUse, t, St(), groupNo, groupPos, zn, zvec, first)
    }

    ghost predicate Grouped()
      reads this`groupNo, this`groupPos
    {
      && GoodMap(inUse) && GoodTables(t, AlphaSize(inUse)) && |tables| == |t.lens| && EveryTable(tables, t.lens)
      && 0 <= groupNo < |t.selectors| && 0 <= groupPos < BZ_G_SIZE
    }

    ghost predicate Valid()
      reads this, mtfa, mtfbase, tt
    {
      Lists() && Grouped() && Ok(At())
    }

    lemma HasTables()
      requires Lists() && Grouped()
      ensures 0 <= nblock <= tt.Length && GoodHeader(h) && GoodMap(inUse) && GoodTables(t, AlphaSize(inUse))
      ensures AtSymbol(St(), 256, 100000 * h.bs) && 0 <= groupNo < |t.selectors| && 0 <= groupPos < BZ_G_SIZE
      ensures forall g :: 0 <= g < |t.selectors| ==>
                && 0 <= t.selectors[g] as int < |t.lens| == |tables|
                && tables[t.selectors[g]].minLen == MinLen(t.lens[t.selectors[g]])
      ensures Stopped(Failed(BZ_DATA_ERROR)) && BZ_G_SIZE > 0 && EveryTable(tables, t.lens) && |tables| == |t.lens|
    {
      GroupTables(tables, t.lens);
      hide TablesOf, Lengths, LowFirst, AlphaSize, MinLen, EveryTable;
    }

    lemma StandsAt()
      requires Lists() && |tables| == |t.lens| && EveryTable(tables, t.lens)
      requires Ok(Symbol(h, inUse, t, St(), groupNo, groupPos, zn, zvec, first))
      ensures Valid() && At() == Symbol(h, inUse, t, St(), groupNo, groupPos, zn, zvec, first)
    {
      hide EveryTable, AlphaSize, LowFirst, Represents;
    }

    lemma Stands()
      requires Valid()
      ensures Lists() && Grouped() && 0 <= nblock <= tt.Length && seqToUnseq == Used(inUse, 256)
      ensures EveryTable(tables, t.lens)
      ensures Ok(At()) && At() == Symbol(h, inUse, t, St(), groupNo, groupPos, zn, zvec, first) && 1 <= zn <= 21
      ensures 0 <= groupNo < |t.selectors| && 0 <= t.selectors[groupNo] as int < |t.lens| == |tables|
      ensures Lengths(t.lens[t.selectors[groupNo]])
              && TablesOf(tables[t.selectors[groupNo]], t.lens[t.selectors[groupNo]])
    {
      hide TablesOf, Lengths, Represents, LowFirst, AlphaSize;
    }

    /** Top of GET_MTF_VAL. */
    method NextLabel() returns (ended: Option<Dec>)
      requires Lists() && Grouped()
      modifies this`groupNo, this`groupPos, this`zn, this`zvec, this`first
      ensures match ended
              case None => Valid() && At() == NextSymbol(h, inUse, t, old(St()), old(groupNo), old(groupPos))
              case Some(d) => Stopped(d) && d == NextSymbol(h, inUse, t, old(St()), old(groupNo), old(groupPos))
    {
      hide *;
      HasTables();
      LabelAfter(h, inUse, t, St(), groupNo, groupPos);
      if groupPos == 0 {
        groupNo := groupNo + 1;
        if groupNo >= |t.selectors| { return Some(Failed(BZ_DATA_ERROR)); }
        groupPos := BZ_G_SIZE;
      }
      groupPos := groupPos - 1;
      zn := tables[t.selectors[groupNo]].minLen;
      zvec, first := 0, true;
      StandsAt();
      ended := None;
    }

    /** A symbol has been decoded. */
    method Deliver(sym: int) returns (ended: Option<Dec>)
      requires Lists() && Grouped() && 0 <= sym <= |seqToUnseq| + 1
      modifies this, mtfa, mtfbase, tt
      ensures match ended
              case None => Valid() && At() == OnSymbol(h, inUse, t, old(St()), old(groupNo), old(groupPos), sym)
              case Some(d) => Stopped(d) && d == OnSymbol(h, inUse, t, old(St()), old(groupNo), old(groupPos), sym)
    {
      SymbolStep(h, inUse, t, St(), groupNo, groupPos, sym);
      hide MtfSymbol, OnSymbol, NextSymbol, LowFirst, Represents, GoodMap, GoodHeader, GoodTables, EveryTable,
          AlphaSize;
      var fate := OnMtf(sym);
      match fate
      case GoesOn => ended := NextLabel();
      case Ends => ended := Some(if h.origPtr >= nblock then Failed(BZ_DATA_ERROR) else Output(h, tt[..nblock]));
      case Breaks => ended := Some(Failed(BZ_DATA_ERROR));
    }

    /** The bits the label waits for have arrived. */
    method Arrive(v: nat) returns (ended: Option<Dec>)
      requires Valid() && v < Pow2(Need(At()))
      modifies this, mtfa, mtfbase, tt
      ensures match ended
              case None => Valid() && At() == Take(old(At()), v)
              case Some(d) => Stopped(d) && d == Take(old(At()), v)
    {
      hide *;
      Stands();
      var table := tables[t.selectors[groupNo]];
      var z := if first then v else 2 * zvec + v;
      CodeStep(At(), table, t.lens[t.selectors[groupNo]], v, z);
      if zn > 20 { return Some(Failed(BZ_DATA_ERROR)); }
      if z > table.limit[zn] {
        zn, zvec, first := zn + 1, z, false;
        StandsAt();
        return None;
      }
      var place := z - table.base[zn];
      if place < 0 || place >= BZ_MAX_ALPHA_SIZE { return Some(Failed(BZ_DATA_ERROR)); }
      if place >= |seqToUnseq| + 2 { return Some(Failed(Unspecified)); }
      ended := Deliver(table.perm[place]);
    }

    /** All symbols of a block, as far as the bits go. */
    method ReadOn(bits: seq<bool>, used0: nat) returns (ended: Option<Dec>, used: nat)
      requires Valid() && used0 <= |bits|
      modifies this, mtfa, mtfbase, tt
      ensures used0 <= used <= |bits|
      ensures match ended
              case None => Valid() && Run(old(At()), bits[used0..]) == (At(), bits[used..])
              case Some(d) => Stopped(d) && Run(old(At()), bits[used0..]) == (d, bits[used..])
    {
      hide *;
      Stands();
      ghost var d0 := At();
      ended, used := None, used0;
      while ended.None?
        invariant used0 <= used <= |bits|
        invariant match ended
                  case None =>
                    && Valid() && 0 <= nblock <= tt.Length && Ok(At())
                    && Run(d0, bits[used0..]) == Run(At(), bits[used..])
                  case Some(d) => Stopped(d) && Run(d0, bits[used0..]) == (d, bits[used..])
        decreases |bits| - used, ended.None?
      {
        Stands();
        var n := if first then zn else 1;
        RunStep(At(), bits, used, n);
        if |bits| - used < n { break; }
        ended := Arrive(Val(bits[used..used + n]));
        used := used + n;
        if ended.None? { Stands(); }
      }
    }
  }

  /** The machine's step at the label, told by the tables. */
  lemma CodeStep(d: Dec, c: CodeTables, len: seq<byte>, v: nat, z: int)
    requires d.Symbol? && Ok(d) && v < Pow2(Need(d)) && len == d.t.lens[d.t.selectors[d.groupNo]]
    requires Lengths(len) && TablesOf(c, len) && z == if d.first then v else 2 * d.zvec + v
    ensures |c.limit| == |c.base| == |c.perm| == BZ_MAX_ALPHA_SIZE && |len| == |Used(d.inUse, 256)| + 2
    ensures Take(d, v) ==
            if d.zn > 20 then Failed(BZ_DATA_ERROR)
            else if z > c.limit[d.zn] then d.(zn := d.zn + 1, zvec := z, first := false)
            else var place := z - c.base[d.zn];
              if place < 0 || place >= BZ_MAX_ALPHA_SIZE then Failed(BZ_DATA_ERROR)
              else if place >= |len| then Failed(Unspecified)
              else OnSymbol(d.h, d.inUse, d.t, d.st, d.groupNo, d.groupPos, c.perm[place])
    ensures forall k :: 0 <= k < |len| ==> 0 <= c.perm[k] < |len|
    ensures |c.limit| > 20 && Stopped(Failed(BZ_DATA_ERROR)) && Stopped(Failed(Unspecified))
  {
    hide MinLen, MaxLen, TVector, Limit, BaseOf, OnSymbol, Used, GoodMap, GoodHeader, AtSymbol;
    LengthBounds(len);
    assert forall k :: 0 <= k < |len| ==> c.perm[k] == TVector(len)[k];
    assert d.zn <= 20 ==> LimitAndBase(c, len, MinLen(len), MaxLen(len), d.zn);
  }

  /** The machine's step on a symbol, told by what the list and the column make of it. */
  lemma SymbolStep(h: Header, inUse: seq<bool>, t: Tables, st: MtfState, groupNo: int, groupPos: int, sym: int)
    requires GoodHeader(h) && GoodMap(inUse) && GoodTables(t, AlphaSize(inUse)) && AtSymbol(st, 256, 100000 * h.bs)
    requires 0 <= groupNo < |t.selectors| && 0 <= groupPos < BZ_G_SIZE
    ensures var u := Used(inUse, 256);
            var r := MtfSymbol(st, sym, |u| + 1, u, 100000 * h.bs);
            && (r.Go? ==>
                && AtSymbol(r.st, 256, 100000 * h.bs)
                && OnSymbol(h, inUse, t, st, groupNo, groupPos, sym)
                    == NextSymbol(h, inUse, t, r.st, groupNo, groupPos))
            && (r.Done? ==>
                && |r.column| <= 100000 * h.bs
                && OnSymbol(h, inUse, t, st, groupNo, groupPos, sym) == Finish(h, r.column))
            && (r.Bad? ==> OnSymbol(h, inUse, t, st, groupNo, groupPos, sym) == Failed(BZ_DATA_ERROR))
  {
    hide MtfSymbol, NextSymbol, Finish, Used;
    MtfKeeps(st, sym, |Used(inUse, 256)| + 1, Used(inUse, 256), 100000 * h.bs);
  }

  /** All symbols of a block, as far as the bits go: what the state machine makes of them. */
  method ReadSymbols(h: Header, inUse: seq<bool>, t: Tables, bits: seq<bool>) returns (ended: Option<Dec>, used: nat)
    requires GoodHeader(h) && GoodMap(inUse) && GoodTables(t, AlphaSize(inUse))
    ensures used <= |bits|
    ensures ended.Some? ==> Run(StartSymbols(h, inUse, t), bits) == (ended.value, bits[used..]) && Stopped(ended.value)
    ensures ended.None? ==> !Stopped(Run(StartSymbols(h, inUse, t), bits).0)
  {
    var r := new SymbolReader(h, inUse, t);
    assert bits[0..] == bits;
    ended, used := r.ReadOn(bits, 0);
  }

  lemma RunStep(d: Dec, bits: seq<bool>, used: nat, n: nat)
    requires d.Symbol? && Ok(d) && used <= |bits| && n == if d.first then d.zn else 1
    ensures n >= 1 && n == Need(d)
    ensures |bits| - used < n ==> Run(d, bits[used..]) == (d, bits[used..])
    ensures |bits| - used >= n ==>
            var v := Val(bits[used..used + n]);
            && v < Pow2(n)
            && Run(d, bits[used..]) == Run(Take(d, v), bits[used + n..])
            && (Stopped(Take(d, v)) ==> Run(d, bits[used..]) == (Take(d, v), bits[used + n..]))
  {
    hide Ok, Take, Val;
    NeedsSome(d);
    if |bits| - used >= n {
      assert bits[used..][..n] == bits[used..used + n] && bits[used..][n..] == bits[used + n..];
      ValBound(bits[used..used + n]);
    }
  }
}
