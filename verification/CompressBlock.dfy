/** `BZ2_blockSort` and the block part of `BZ2_compressBlock`: from a block of bytes to its bits. */
module CompressBlock {
  import opened Base
  import opened Rotations
  import opened Bits
  import opened PrefixCode
  import opened MoveToFront
  import opened GenerateMtf
  import opened BlockFormat
  import opened SendMtf
  import opened WriteBlock
  import opened RunLength
  import opened Streams
  import FallbackSort
  import MainSimpleSort
  import MainSort

  /** The search for the row of the original block; assertion 1003 says that it succeeds. */
  method FindOrigPtr(ptr: array<int>) returns (origPtr: int)
    requires ptr.Length > 0 && IsPerm(ptr[..], ptr.Length)
    ensures 0 <= origPtr < ptr.Length && ptr[origPtr] == 0
  {
    PermOnto(ptr[..], ptr.Length, 0);
    assert ptr[..ptr.Length] == ptr[..];
    for i := 0 to ptr.Length
      invariant 0 !in ptr[..i]
    {
      if ptr[i] == 0 { return i; }
      assert ptr[..i + 1] == ptr[..i] + [ptr[i]];
    }
    assert false;
  }

  /** How many rounds of comparing the main sort may use: the work factor, kept between 1 and 100, decides. */
  function BudgetInit(nblock: nat, workFactor: int): (budget: int)
    ensures workFactor <= 1 ==> budget == 0
    ensures 1 <= workFactor <= 100 ==>
              exists k: nat :: 3 * k < workFactor <= 3 * k + 3 && budget == nblock * k
    ensures workFactor >= 100 ==> budget == 33 * nblock
    ensures budget >= 0
  {
    var wfact := if workFactor < 1 then 1 else if workFactor > 100 then 100 else workFactor;
    nblock * ((wfact - 1) / 3)
  }

  /**
   * `BZ2_blockSort`: short blocks go to the fallback sort at once, longer ones when the main sort has used up its
   * budget.
   */
  method BlockSort(block: array<byte>, workFactor: int) returns (ptr: array<int>, origPtr: int)
    requires 0 < block.Length <= FallbackSort.MAX_NBLOCK
    modifies block
    ensures fresh(ptr) && ptr.Length == block.Length && block[..] == old(block[..])
    ensures SortsRotations(block[..], ptr[..]) && IsPerm(ptr[..], block.Length)
    ensures 0 <= origPtr < ptr.Length && ptr[origPtr] == 0
  {
    ptr := new int[block.Length];
    if block.Length < 10000 {
      Fallback(ptr, block);
    } else {
      assert MainSimpleSort.BZ_N_OVERSHOOT == 34;
      var budget := MainSort.MainSort(ptr, block[..], BudgetInit(block.Length, workFactor));
      if budget < 0 {
        Fallback(ptr, block);
      }
    }
    origPtr := FindOrigPtr(ptr);
  }

  method Fallback(ptr: array<int>, block: array<byte>)
    requires 0 < block.Length == ptr.Length <= FallbackSort.MAX_NBLOCK
    modifies ptr, block
    ensures block[..] == old(block[..]) && SortsRotations(block[..], ptr[..])
  {
    var eclass, bhtab := new int[block.Length], new bool[FallbackSort.BH_BITS];
    FallbackSort.FallbackSort(ptr, eclass, block, bhtab, block.Length);
  }

  method PutBytes(sink: BitSink, s: seq<byte>)
    requires sink.Valid()
    modifies sink
    ensures sink.Valid() && sink.bits == old(sink.bits) + BytesBits(s)
  {
    hide BitSink.Valid, ToBits;
    ghost var total := sink.bits + BytesBits(s);
    for i := 0 to |s|
      invariant sink.Valid() && sink.bits + BytesBits(s[i..]) == total
    {
      ghost var before := sink.bits;
      BytesNext(s, i, before);
      sink.PutUChar(s[i]);
    }
    assert s[|s|..] == [];
    assert sink.bits + [] == sink.bits;
  }

  lemma BytesNext(s: seq<byte>, i: nat, before: seq<bool>)
    requires i < |s|
    ensures before + BytesBits(s[i..]) == before + ToBits(s[i], 8) + BytesBits(s[i + 1..])
  {
    assert s[i..][1..] == s[i + 1..];
    Assoc(before, ToBits(s[i], 8), BytesBits(s[i + 1..]));
  }

  /** The symbols of a block fit the alphabet that is announced for it. */
  lemma SymbolsInAlphabet(u: seq<bool>, l: seq<byte>)
    requires |u| == 256 && l != [] && forall i :: 0 <= i < |l| ==> u[l[i]]
    ensures InAlphabet(BlockSymbols(u, l), |Used(u, 256)| + 2) && 1 <= |Used(u, 256)| <= 256
    ensures 0 < |BlockSymbols(u, l)| <= |l| + 1
  {
    BlockSymbolsEnd(u, l);
    BlockSymbolsRange(u, l);
    UsedAtRank(u, l[0], 256);
  }

  /** The four sections that `sendMTFValues` writes. */
  ghost function BodyBits(b: Block, limit: int): seq<bool>
    requires ValidBlock(b, limit)
  {
    MappingBits(b) + (SelectorsBits(b, limit) + (LengthsBits(b, limit) + SymbolsBits(b, limit)))
  }

  lemma BodyIs(b: Block, limit: int)
    requires ValidBlock(b, limit)
    ensures Within(b.tables.selectors, FirstBytes(|b.tables.lens|)) && |b.tables.lens| <= 6
    ensures BodyBits(b, limit) ==
            (Summary(b.inUse) + MappingTail(b.inUse, 0))
            + ((ToBits(|b.tables.lens|, 3) + (ToBits(|b.tables.selectors|, 15)
                + SelectorBits(SelectorMtf(FirstBytes(|b.tables.lens|), b.tables.selectors))))
              + (TablesBits(b.tables.lens) + CodesFrom(b.tables, BlockSymbols(b.inUse, b.column), 0)))
  {
    AllTables(b.tables.selectors, |b.tables.lens|);
  }

  method AllCodes(lens: seq<seq<byte>>) returns (codes: seq<seq<int>>)
    requires AllLengths(lens)
    ensures CodesFor(codes, lens)
  {
    codes := [];
    for t := 0 to |lens|
      invariant |codes| == t && forall u :: 0 <= u < t ==> IsCodes(codes[u], lens[u])
    {
      var code := CodesOf(lens[t]);
      codes := codes + [code];
    }
  }

  /** `sendMTFValues`. */
  method SendMtfValues(sink: BitSink, inUse: array<bool>, mtfv: array<int>, nMTF: int, mtfFreq: array<int>, nInUse: int,
                       ghost crc: int, ghost origPtr: int, ghost l: seq<byte>, ghost limit: int)
    returns (t: Tables)
    requires sink.Valid() && inUse.Length == 256 && inUse as object != sink && mtfv as object != sink
    requires l != [] && |l| <= 900000 && |l| <= limit && (forall i :: 0 <= i < |l| ==> inUse[..][l[i]])
    requires 0 <= crc < 0x1_0000_0000 && 0 <= origPtr < |l|
    requires 0 < nMTF <= mtfv.Length && mtfv[..nMTF] == BlockSymbols(inUse[..], l)
    requires nInUse == |Used(inUse[..], 256)| && mtfFreq.Length == 258
    modifies sink
    ensures sink.Valid() && ValidBlock(Block(crc, origPtr, inUse[..], t, l), limit)
    ensures sink.bits == old(sink.bits) + BodyBits(Block(crc, origPtr, inUse[..], t, l), limit)
  {
    ghost var start, u, syms := sink.bits, inUse[..], mtfv[..nMTF];
    SymbolsInAlphabet(u, l);
    ghost var tables, chosen, bounds;
    t, tables, chosen, bounds := ChooseTables(mtfv, nMTF, mtfFreq, nInUse + 2);
    ghost var b := Block(crc, origPtr, u, t, l);
    assert ValidBlock(b, limit);
    TablesServeSending(t, nInUse + 2);
    hide *;
    var selectorMtf := CodeSelectors(t.selectors, |t.lens|);
    var codes := AllCodes(t.lens);
    SendMapping(sink, inUse);
    ghost var s1 := sink.bits;
    SendSelectors(sink, |t.lens|, selectorMtf);
    ghost var s2 := sink.bits;
    SendTables(sink, t.lens);
    ghost var s3 := sink.bits;
    SendSymbols(sink, t, codes, mtfv, nMTF);
    BodyIs(b, limit);
    BodyJoins(start, s1, s2, s3, sink.bits, b, limit);
  }

  lemma TablesServeSending(t: Tables, alphaSize: int)
    requires GoodTables(t, alphaSize)
    ensures AllLengths(t.lens) && t.lens != [] && 2 <= |t.lens| <= BZ_N_GROUPS && BZ_N_GROUPS == 6
    ensures Under(t.selectors, |t.lens|) && 0 < |t.selectors| < 32768
  {
  }

  lemma BodyJoins(s0: seq<bool>, s1: seq<bool>, s2: seq<bool>, s3: seq<bool>, s4: seq<bool>, b: Block, limit: int)
    requires ValidBlock(b, limit) && Within(b.tables.selectors, FirstBytes(|b.tables.lens|)) && |b.tables.lens| <= 6
    requires s1 == s0 + (Summary(b.inUse) + MappingTail(b.inUse, 0))
    requires s2 == s1 + (ToBits(|b.tables.lens|, 3) + (ToBits(|b.tables.selectors|, 15)
                           + SelectorBits(SelectorMtf(FirstBytes(|b.tables.lens|), b.tables.selectors))))
    requires s3 == s2 + TablesBits(b.tables.lens)
    requires s4 == s3 + CodesFrom(b.tables, BlockSymbols(b.inUse, b.column), 0)
    ensures s4 == s0 + BodyBits(b, limit)
  {
    BodyIs(b, limit);
    hide *;
    Join4(s0, Summary(b.inUse) + MappingTail(b.inUse, 0), ToBits(|b.tables.lens|, 3) + (ToBits(|b.tables.selectors|, 15)
            + SelectorBits(SelectorMtf(FirstBytes(|b.tables.lens|), b.tables.selectors))),
          TablesBits(b.tables.lens), CodesFrom(b.tables, BlockSymbols(b.inUse, b.column), 0));
  }

  lemma Join4(s: seq<bool>, a: seq<bool>, b: seq<bool>, c: seq<bool>, d: seq<bool>)
    ensures s + a + b + c + d == s + (a + (b + (c + d)))
  {
  }

  /** A block of packed runs: sorted, transformed, coded and written. */
  method WriteClosed(sink: BitSink, data: seq<byte>, inUse: array<bool>, crc: int, workFactor: int,
                     ghost table: seq<word>, ghost bs: int, ghost pairs: seq<Pair>)
    returns (ghost c: Closed)
    requires sink.Valid() && inUse.Length == 256 && inUse as object != sink && |table| == 256
    requires 1 <= bs <= 9 && 0 < |data| <= 100000 * bs && Runs(pairs) && data == PackRuns(pairs)
    requires (forall i :: 0 <= i < |data| ==> inUse[data[i]]) && crc == CrcOf(table, Text(pairs))
    modifies sink
    ensures sink.Valid() && ValidClosed(c, table, bs) && c.pairs == pairs && c.b.crc == crc
    ensures sink.bits == old(sink.bits) + BlockBits(c.b, 100000 * bs)
  {
    hide *;
    ghost var start := sink.bits;
    var block := new byte[|data|](i requires 0 <= i < |data| => data[i]);
    assert block[..] == data;
    RowFits();
    var ptr, origPtr := BlockSort(block, workFactor);
    PutBytes(sink, BLOCK_MAGIC);
    sink.PutUInt32(crc);
    PutBit(sink, false);
    sink.W(24, origPtr);
    ghost var mid := sink.bits;
    ghost var l := LastColumn(data, ptr[..]);
    var mtfv, mtfFreq := new int[|data| + 1], new int[258];
    assert block[..|data|] == data && ptr[..|data|] == ptr[..];
    var nMTF, nInUse := GenerateMtfValues(ptr, block, |data|, inUse, mtfv, mtfFreq);
    var t := SendMtfValues(sink, inUse, mtfv, nMTF, mtfFreq, nInUse, crc, origPtr, l, 100000 * bs);
    c := Closed(Block(crc, origPtr, inUse[..], t, l), pairs, ptr[..]);
    ClosedIs(c, table, bs);
    HeaderJoins(start, mid, sink.bits, c.b, 100000 * bs);
  }

  lemma RowFits()
    ensures Pow2(24) == 0x100_0000 && FallbackSort.MAX_NBLOCK == 900000
  {
    Pow2Values();
  }

  lemma ClosedIs(c: Closed, table: seq<word>, bs: int)
    requires |table| == 256 && ValidBlock(c.b, 100000 * bs) && Runs(c.pairs) && SortsRotations(PackRuns(c.pairs), c.ptr)
    requires IsPerm(c.ptr, |PackRuns(c.pairs)|) && c.b.column == LastColumn(PackRuns(c.pairs), c.ptr)
    requires 0 <= c.b.origPtr < |c.ptr| && c.ptr[c.b.origPtr] == 0 && c.b.crc == CrcOf(table, Text(c.pairs))
    ensures ValidClosed(c, table, bs)
  {
  }

  lemma HeaderJoins(s0: seq<bool>, s1: seq<bool>, s2: seq<bool>, b: Block, limit: int)
    requires ValidBlock(b, limit) && s1 == s0 + BytesBits(BLOCK_MAGIC) + ToBits(b.crc, 32) + [false]
             + ToBits(b.origPtr, 24)
    requires s2 == s1 + BodyBits(b, limit)
    ensures s2 == s0 + BlockBits(b, limit)
  {
    hide BytesBits, ToBits, MappingBits, SelectorsBits, LengthsBits, SymbolsBits;
    Join5(s0, BytesBits(BLOCK_MAGIC), ToBits(b.crc, 32), [false], ToBits(b.origPtr, 24), BodyBits(b, limit));
  }

  lemma Join5(s: seq<bool>, a: seq<bool>, b: seq<bool>, c: seq<bool>, d: seq<bool>, e: seq<bool>)
    ensures s + a + b + c + d + e == s + (a + (b + (c + (d + e))))
  {
  }
}
