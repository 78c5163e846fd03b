/** Writing a block: the mapping table, the selectors, the coding tables and the symbols. */
module WriteBlock {
  import opened Base
  import opened Counting
  import opened Bits
  import opened PrefixCode
  import opened MoveToFront
  import opened GenerateMtf
  import opened BlockFormat
  import opened SendMtf

  lemma BitOf(b: bool)
    ensures ToBits(if b then 1 else 0, 1) == [b] && Pow2(1) == 2
  {
    assert ToBits(0, 0) == [] && Pow2(0) == 1;
  }

  method PutBit(sink: BitSink, b: bool)
    requires sink.Valid()
    modifies sink
    ensures sink.Valid() && sink.bits == old(sink.bits) + [b]
  {
    BitOf(b);
    sink.W(1, if b then 1 else 0);
  }

  // ------------------------------------------------------------ the mapping table

  lemma TailIs(u: seq<bool>, i: nat)
    requires |u| == 256 && i < 16
    ensures MappingTail(u, i) == (if true in u[16 * i..16 * i + 16] then u[16 * i..16 * i + 16] + MappingTail(u, i + 1)
            else MappingTail(u, i + 1))
    ensures Summary(u)[i] <==> true in u[16 * i..16 * i + 16]
  {
  }

  lemma TailEnds(u: seq<bool>)
    requires |u| == 256
    ensures MappingTail(u, 16) == []
  {
  }

  /** The sixteen bits of one group, or the tail of them from the `j`-th on. */
  method SendGroup(sink: BitSink, inUse: array<bool>, i: int)
    requires sink.Valid() && inUse.Length == 256 && 0 <= i < 16 && inUse as object != sink
    modifies sink
    ensures sink.Valid() && sink.bits == old(sink.bits) + inUse[16 * i..16 * i + 16]
  {
    ghost var start := sink.bits;
    for j := 0 to 16
      invariant sink.Valid() && sink.bits == start + inUse[16 * i..16 * i + j]
    {
      PutBit(sink, inUse[i * 16 + j]);
    }
  }

  /** Which groups of sixteen byte values occur. */
  method UsedGroups(inUse: array<bool>) returns (inUse16: array<bool>)
    requires inUse.Length == 256
    ensures fresh(inUse16) && inUse16.Length == 16 && inUse16[..] == Summary(inUse[..])
  {
    inUse16 := new bool[16];
    for i := 0 to 16
      invariant forall k :: 0 <= k < i ==> inUse16[k] == (true in inUse[16 * k..16 * k + 16])
    {
      inUse16[i] := false;
      for j := 0 to 16
        modifies inUse16
        invariant inUse16[i] == (true in inUse[16 * i..16 * i + j])
        invariant forall k :: 0 <= k < i ==> inUse16[k] == (true in inUse[16 * k..16 * k + 16])
      {
        assert inUse[16 * i..16 * i + j + 1] == inUse[16 * i..16 * i + j] + [inUse[16 * i + j]];
        if inUse[i * 16 + j] { inUse16[i] := true; }
      }
    }
    forall k | 0 <= k < 16 ensures inUse16[..][k] == Summary(inUse[..])[k] {
      assert inUse[..][16 * k..16 * k + 16] == inUse[16 * k..16 * k + 16];
    }
  }

  method SendBits(sink: BitSink, s: seq<bool>)
    requires sink.Valid()
    modifies sink
    ensures sink.Valid() && sink.bits == old(sink.bits) + s
  {
    hide *;
    ghost var start := sink.bits;
    for i := 0 to |s|
      invariant sink.Valid() && sink.bits == start + s[..i]
    {
      PutBit(sink, s[i]);
      assert s[..i + 1] == s[..i] + [s[i]];
    }
    assert s[..|s|] == s;
  }

  /** Sixteen bits saying which groups occur, then the bits of those groups. */
  method SendMapping(sink: BitSink, inUse: array<bool>)
    requires sink.Valid() && inUse.Length == 256 && inUse as object != sink
    modifies sink
    ensures sink.Valid() && sink.bits == old(sink.bits) + (Summary(inUse[..]) + MappingTail(inUse[..], 0))
  {
    hide *;
    ghost var start, u := sink.bits, inUse[..];
    var inUse16 := UsedGroups(inUse);
    SendBits(sink, inUse16[..]);
    ghost var total := sink.bits + MappingTail(u, 0);
    Assoc(start, Summary(u), MappingTail(u, 0));
    for i := 0 to 16
      modifies sink
      invariant sink.Valid() && sink.bits + MappingTail(u, i) == total
    {
      TailIs(u, i);
      assert inUse16[..][i] == inUse16[i] && inUse[16 * i..16 * i + 16] == u[16 * i..16 * i + 16];
      ghost var before := sink.bits;
      if inUse16[i] {
        SendGroup(sink, inUse, i);
        Assoc(before, u[16 * i..16 * i + 16], MappingTail(u, i + 1));
      }
    }
    TailEnds(u);
  }

  // ------------------------------------------------------------ selectors

  method FirstPositions(nGroups: int) returns (pos: array<byte>)
    requires 2 <= nGroups <= BZ_N_GROUPS
    ensures fresh(pos) && 2 <= nGroups <= pos.Length && nGroups <= 256 && pos[..nGroups] == FirstBytes(nGroups)
  {
    pos := new byte[BZ_N_GROUPS];
    for i := 0 to nGroups
      invariant forall k :: 0 <= k < i ==> pos[k] as int == k
    {
      pos[i] := i;
    }
  }

  /** The selectors' positions in a move-to-front list of the tables. */
  method CodeSelectors(selectors: seq<byte>, nGroups: int) returns (selectorMtf: seq<nat>)
    requires 2 <= nGroups <= BZ_N_GROUPS && Under(selectors, nGroups)
    ensures Within(selectors, FirstBytes(nGroups)) && selectorMtf == SelectorMtf(FirstBytes(nGroups), selectors)
  {
    assert BZ_N_GROUPS == 6;
    hide *;
    AllTables(selectors, nGroups);
    var pos := FirstPositions(nGroups);
    selectorMtf := [];
    ghost var order := FirstBytes(nGroups);
    ghost var total := SelectorMtf(order, selectors);
    assert selectors[0..] == selectors && [] + total == total;
    for i := 0 to |selectors|
      invariant |order| == nGroups && pos[..nGroups] == order && Within(selectors[i..], order)
      invariant selectorMtf + SelectorMtf(order, selectors[i..]) == total
    {
      ghost var done := selectorMtf;
      SelectorMtfAt(order, selectors, i);
      var j := ToFront(pos, selectors[i], nGroups);
      selectorMtf := selectorMtf + [j];
      order := Front(order, j);
      assert done + ([j] + SelectorMtf(order, selectors[i + 1..])) == selectorMtf
          + SelectorMtf(order, selectors[i + 1..]);
    }
    NoSelectors(order, selectors);
  }

  lemma SelectorMtfAt(order: seq<byte>, selectors: seq<byte>, i: nat)
    requires i < |selectors| && Within(selectors[i..], order)
    ensures selectors[i] in order
    ensures var j := IndexOf(order, selectors[i]);
            && Within(selectors[i + 1..], Front(order, j))
            && SelectorMtf(order, selectors[i..]) == [j] + SelectorMtf(Front(order, j), selectors[i + 1..])
  {
    WithinTail(selectors[i..], order);
    hide Within, Front, IndexOf;
    assert selectors[i..][1..] == selectors[i + 1..];
  }

  lemma NoSelectors(order: seq<byte>, selectors: seq<byte>)
    requires Within(selectors[|selectors|..], order)
    ensures SelectorMtf(order, selectors[|selectors|..]) == []
  {
  }

  /** The search that shifts as it goes; the sought table may stand in front already. */
  method ToFront(pos: array<byte>, c: byte, n: int) returns (j: nat)
    requires 1 <= n <= pos.Length && c in pos[..n]
    modifies pos
    ensures j == IndexOf(old(pos[..n]), c) && pos[..n] == Front(old(pos[..n]), j)
  {
    ghost var f := pos[..n];
    j := 0;
    var tmp := pos[0];
    assert f[..0] == [] && Shifting(f, pos[..n], 0);
    hide Shifting, IndexOf, Front;
    while c != tmp
      invariant 0 <= j < n && tmp == f[j] && c !in f[..j] && Shifting(f, pos[..n], j)
      decreases n - j
    {
      ghost var s := pos[..n];
      ShiftingOn(f, s, j, c);
      j := j + 1;
      var tmp2 := tmp;
      tmp := pos[j];
      pos[j] := tmp2;
      assert pos[..n] == s[j := tmp2];
    }
    ShiftingEnds(f, pos[..n], j, c);
    ghost var s := pos[..n];
    pos[0] := tmp;
    assert pos[..n] == s[0 := tmp];
  }

  lemma OneMore(n: nat)
    ensures Ones(n) + [true] == Ones(n + 1)
  {
    if n > 0 {
      OneMore(n - 1);
    }
  }

  method SendUnary(sink: BitSink, m: nat)
    requires sink.Valid()
    modifies sink
    ensures sink.Valid() && sink.bits == old(sink.bits) + (Ones(m) + [false])
  {
    hide *;
    ghost var start := sink.bits;
    NoOnes();
    for j := 0 to m
      invariant sink.Valid() && sink.bits == start + Ones(j)
    {
      OneMore(j);
      PutBit(sink, true);
      Assoc(start, Ones(j), [true]);
    }
    PutBit(sink, false);
    Assoc(start, Ones(m), [false]);
  }

  lemma NoOnes()
    ensures Ones(0) == []
  {
  }

  lemma SelectorBitsAt(m: seq<nat>, i: nat)
    requires i < |m|
    ensures SelectorBits(m[i..]) == (Ones(m[i]) + [false]) + SelectorBits(m[i + 1..])
    ensures SelectorBits(m[|m|..]) == []
  {
    assert m[i..][1..] == m[i + 1..];
    Assoc(Ones(m[i]), [false], SelectorBits(m[i + 1..]));
  }

  method SendSelectors(sink: BitSink, nGroups: int, selectorMtf: seq<nat>)
    requires sink.Valid() && 0 <= nGroups < 8 && 0 < |selectorMtf| < 32768
    modifies sink
    ensures sink.Valid()
    ensures sink.bits == old(sink.bits) + (ToBits(nGroups, 3) + (ToBits(|selectorMtf|, 15) + SelectorBits(selectorMtf)))
  {
    Pow2Values();
    hide *;
    ghost var start := sink.bits;
    sink.W(3, nGroups);
    ghost var mid := sink.bits;
    sink.W(15, |selectorMtf|);
    ghost var total := sink.bits + SelectorBits(selectorMtf);
    Assoc(mid, ToBits(|selectorMtf|, 15), SelectorBits(selectorMtf));
    Assoc(start, ToBits(nGroups, 3), ToBits(|selectorMtf|, 15) + SelectorBits(selectorMtf));
    assert selectorMtf[0..] == selectorMtf;
    for i := 0 to |selectorMtf|
      invariant sink.Valid() && sink.bits + SelectorBits(selectorMtf[i..]) == total
    {
      ghost var before := sink.bits;
      SelectorBitsAt(selectorMtf, i);
      SendUnary(sink, selectorMtf[i]);
      Assoc(before, Ones(selectorMtf[i]) + [false], SelectorBits(selectorMtf[i + 1..]));
    }
    SelectorBitsAt(selectorMtf, 0);
  }

  // ------------------------------------------------------------ code lengths

  lemma TwoBits()
    ensures ToBits(2, 2) == [true, false] && ToBits(3, 2) == [true, true] && Pow2(2) == 4
  {
    assert ToBits(1, 1) == [true] by { assert ToBits(0, 0) == []; }
    assert Pow2(1) == 2 by { assert Pow2(0) == 1; }
  }

  lemma StepsAre(curr: int, target: int)
    ensures Steps(curr, target) ==
            if curr < target then [true, false] + Steps(curr + 1, target)
            else if curr > target then [true, true] + Steps(curr - 1, target) else []
  {
  }

  /** One step of a length: two bits. */
  method SendStep(sink: BitSink, down: bool, ghost curr: int, ghost target: int)
    requires sink.Valid() && if down then curr > target else curr < target
    modifies sink
    ensures sink.Valid() && sink.bits + Steps(if down then curr - 1 else curr + 1, target) == old(sink.bits)
            + Steps(curr, target)
  {
    TwoBits();
    StepsAre(curr, target);
    hide *;
    ghost var before := sink.bits;
    sink.W(2, if down then 3 else 2);
    Assoc(before, [true, down], Steps(if down then curr - 1 else curr + 1, target));
  }

  /** From one length to the next, and the bit that ends it. */
  method SendLength(sink: BitSink, curr0: int, target: int) returns (curr: int)
    requires sink.Valid()
    modifies sink
    ensures sink.Valid() && curr == target && sink.bits == old(sink.bits) + (Steps(curr0, target) + [false])
  {
    hide *;
    curr := curr0;
    ghost var start := sink.bits;
    ghost var total := start + Steps(curr0, target);
    while curr < target
      invariant sink.Valid() && (curr <= target || curr == curr0) && sink.bits + Steps(curr, target) == total
    {
      SendStep(sink, false, curr, target);
      curr := curr + 1;
    }
    while curr > target
      invariant sink.Valid() && curr >= target && sink.bits + Steps(curr, target) == total
    {
      SendStep(sink, true, curr, target);
      curr := curr - 1;
    }
    StepsAre(curr, target);
    PutBit(sink, false);
    Assoc(start, Steps(curr0, target), [false]);
  }

  lemma DeltaBitsAt(curr: int, len: seq<byte>, i: nat)
    requires i < |len|
    ensures DeltaBits(curr, len[i..]) == (Steps(curr, len[i]) + [false]) + DeltaBits(len[i], len[i + 1..])
    ensures DeltaBits(len[i], len[|len|..]) == []
  {
    assert len[i..][1..] == len[i + 1..];
    Assoc(Steps(curr, len[i]), [false], DeltaBits(len[i], len[i + 1..]));
  }

  method SendTable(sink: BitSink, len: seq<byte>)
    requires sink.Valid() && Lengths(len)
    modifies sink
    ensures sink.Valid() && sink.bits == old(sink.bits) + (ToBits(len[0], 5) + DeltaBits(len[0], len))
  {
    Pow2Values();
    assert |len| > 0 && forall i :: 0 <= i < |len| ==> 1 <= len[i] <= 20;
    ghost var start := sink.bits;
    hide *;
    var curr: int := len[0] as int;
    sink.W(5, curr);
    ghost var total := sink.bits + DeltaBits(curr, len);
    Assoc(start, ToBits(curr, 5), DeltaBits(curr, len));
    assert len[0..] == len;
    for i := 0 to |len|
      invariant sink.Valid() && 0 <= curr <= 20 && sink.bits + DeltaBits(curr, len[i..]) == total
      invariant i > 0 ==> curr == len[i - 1] as int
    {
      ghost var before, curr0 := sink.bits, curr;
      DeltaBitsAt(curr, len, i);
      curr := SendLength(sink, curr, len[i] as int);
      Assoc(before, Steps(curr0, len[i]) + [false], DeltaBits(curr, len[i + 1..]));
    }
    DeltaBitsAt(0, len, |len| - 1);
  }

  ghost predicate AllLengths(lens: seq<seq<byte>>) {
    forall t :: 0 <= t < |lens| ==> Lengths(lens[t])
  }

  lemma TablesBitsAt(lens: seq<seq<byte>>, t: nat)
    requires t < |lens| && forall u :: 0 <= u < |lens| ==> lens[u] != []
    ensures TablesBits(lens[t..]) == (ToBits(lens[t][0], 5) + DeltaBits(lens[t][0], lens[t]))
            + TablesBits(lens[t + 1..])
    ensures TablesBits(lens[|lens|..]) == []
  {
    assert lens[t..][1..] == lens[t + 1..];
    Assoc(ToBits(lens[t][0], 5), DeltaBits(lens[t][0], lens[t]), TablesBits(lens[t + 1..]));
  }

  method SendTables(sink: BitSink, lens: seq<seq<byte>>)
    requires sink.Valid() && AllLengths(lens) && lens != []
    modifies sink
    ensures sink.Valid() && sink.bits == old(sink.bits) + TablesBits(lens)
  {
    ghost var total := sink.bits + TablesBits(lens);
    assert lens[0..] == lens && forall u :: 0 <= u < |lens| ==> Lengths(lens[u]) && lens[u] != [];
    hide *;
    for t := 0 to |lens|
      invariant sink.Valid() && sink.bits + TablesBits(lens[t..]) == total
    {
      ghost var before := sink.bits;
      TablesBitsAt(lens, t);
      SendTable(sink, lens[t]);
      Assoc(before, ToBits(lens[t][0], 5) + DeltaBits(lens[t][0], lens[t]), TablesBits(lens[t + 1..]));
    }
    TablesBitsAt(lens, 0);
  }

  // ------------------------------------------------------------ the symbols

  /** The codes of one table. */
  method CodesOf(len: seq<byte>) returns (code: seq<int>)
    requires Lengths(len)
    ensures |code| == |len| && forall s :: 0 <= s < |len| ==> code[s] == Code(len, s)
  {
    var length := new byte[|len|](i requires 0 <= i < |len| => len[i]);
    var table := new int[|len|];
    var minLen, maxLen := 32, 0;
    for i := 0 to |len|
      invariant i == 0 ==> minLen == 32 && maxLen == 0
      invariant i > 0 ==> 1 <= minLen <= maxLen <= 20
      invariant forall k :: 0 <= k < i ==> minLen <= len[k] as int <= maxLen
    {
      if len[i] as int > maxLen { maxLen := len[i] as int; }
      if (len[i] as int) < minLen { minLen := len[i] as int; }
    }
    assert length[..|len|] == len;
    AssignCodes(table, length, minLen, maxLen, |len|);
    code := table[..];
  }

  lemma CodeFits(len: seq<byte>, s: nat)
    requires Lengths(len) && Kraft(len) <= Pow2(20) && s < |len|
    ensures Code(len, s) < Pow2(len[s]) && 1 <= len[s] <= 20 && CodeBits(len, s) == ToBits(Code(len, s), len[s])
  {
    CodeRange(len, s);
    PastFits(len, len[s]);
  }

  ghost predicate CodesFor(codes: seq<seq<int>>, lens: seq<seq<byte>>) {
    |codes| == |lens| && forall t :: 0 <= t < |lens| ==> IsCodes(codes[t], lens[t])
  }

  ghost predicate IsCodes(code: seq<int>, len: seq<byte>) {
    |code| == |len| && forall s :: 0 <= s < |len| ==> code[s] == Code(len, s)
  }

  lemma SymbolCode(t: Tables, codes: seq<seq<int>>, syms: seq<int>, k: nat)
    requires Decodable(t.lens) && CodesFor(codes, t.lens) && Codable(t, syms) && k < |syms|
    ensures 0 <= t.selectors[k / 50] as int < |t.lens| && 0 <= syms[k] < |codes[t.selectors[k / 50]]|
            == |t.lens[t.selectors[k / 50]]|
    ensures var (len, code) := (t.lens[t.selectors[k / 50]], codes[t.selectors[k / 50]]);
            && 1 <= len[syms[k]] <= 20 && 0 <= code[syms[k]] < Pow2(len[syms[k]])
            && CodesFrom(t, syms, k) == ToBits(code[syms[k]], len[syms[k]]) + CodesFrom(t, syms, k + 1)
  {
    hide CodeBits, Kraft;
    CodeFits(t.lens[t.selectors[k / 50]], syms[k]);
    assert IsCodes(codes[t.selectors[k / 50]], t.lens[t.selectors[k / 50]]);
  }

  method SendSymbol(sink: BitSink, t: Tables, codes: seq<seq<int>>, selCtr: int, sym: int, ghost syms: seq<int>,
      ghost i: nat)
    requires sink.Valid() && Decodable(t.lens) && CodesFor(codes, t.lens) && Codable(t, syms)
    requires i < |syms| && sym == syms[i] && selCtr == i / 50
    modifies sink
    ensures sink.Valid() && sink.bits + CodesFrom(t, syms, i + 1) == old(sink.bits) + CodesFrom(t, syms, i)
  {
    SymbolCode(t, codes, syms, i);
    assert selCtr < |t.selectors|;
    hide *;
    ghost var before := sink.bits;
    var (len, code) := (t.lens[t.selectors[selCtr]], codes[t.selectors[selCtr]]);
    sink.W(len[sym] as int, code[sym]);
    Assoc(before, ToBits(code[sym], len[sym]), CodesFrom(t, syms, i + 1));
  }

  /** One group, all of it with one table. */
  method SendFifty(sink: BitSink, t: Tables, codes: seq<seq<int>>, mtfv: array<int>, gs: int, ge: int, selCtr: int,
      ghost syms: seq<int>)
    requires sink.Valid() && Decodable(t.lens) && CodesFor(codes, t.lens) && Codable(t, syms) && mtfv as object != sink
    requires 0 <= gs <= ge < |syms| <= mtfv.Length && syms == mtfv[..|syms|] && gs == 50 * selCtr && ge < gs + 50
    modifies sink
    ensures sink.Valid() && sink.bits + CodesFrom(t, syms, ge + 1) == old(sink.bits) + CodesFrom(t, syms, gs)
  {
    hide *;
    ghost var total := sink.bits + CodesFrom(t, syms, gs);
    for i := gs to ge + 1
      modifies sink
      invariant sink.Valid() && sink.bits + CodesFrom(t, syms, i) == total
    {
      SendSymbol(sink, t, codes, selCtr, mtfv[i], syms, i);
    }
  }

  /** The symbols in groups of fifty, each group with the table its selector names. */
  method SendSymbols(sink: BitSink, t: Tables, codes: seq<seq<int>>, mtfv: array<int>, nMTF: int)
    requires sink.Valid() && 0 <= nMTF <= mtfv.Length && mtfv as object != sink
    requires Decodable(t.lens) && CodesFor(codes, t.lens) && Codable(t, mtfv[..nMTF])
    modifies sink
    ensures sink.Valid() && sink.bits == old(sink.bits) + CodesFrom(t, mtfv[..nMTF], 0)
  {
    assert BZ_G_SIZE == 50;
    hide *;
    ghost var syms := mtfv[..nMTF];
    ghost var total := sink.bits + CodesFrom(t, syms, 0);
    var selCtr, gs := 0, 0;
    while gs < nMTF
      modifies sink
      invariant sink.Valid() && 0 <= gs <= nMTF && (gs == 50 * selCtr || gs == nMTF) && 0 <= selCtr
      invariant sink.bits + CodesFrom(t, syms, gs) == total
      decreases nMTF - gs
    {
      var ge := gs + BZ_G_SIZE - 1;
      if ge >= nMTF { ge := nMTF - 1; }
      SendFifty(sink, t, codes, mtfv, gs, ge, selCtr, syms);
      gs := ge + 1;
      selCtr := selCtr + 1;
    }
    NoCodes(t, syms);
  }
}
