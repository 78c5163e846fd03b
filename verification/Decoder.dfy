/**
 * `BZ2_decompress` as the state machine it is: one constructor for every group of GET_BITS labels, holding what the
 * save area keeps for it, and one transition for every arrival of the bits a label asks for.
 */
module Decoder {
  import opened Base
  import opened Counting
  import opened Bits
  import opened PrefixCode
  import opened MoveToFront
  import opened GenerateMtf
  import opened BlockFormat

  datatype Code = BZ_OK | BZ_STREAM_END | BZ_DATA_ERROR | BZ_DATA_ERROR_MAGIC | BZ_SEQUENCE_ERROR | Unspecified

  /** What the block header says: block size of the stream, stored block CRC, origPtr. */
  datatype Header = Header(bs: int, crc: int, origPtr: int)

  datatype Dec =
    | Magic(k: int)
    | BlkHdr(bs: int, k: int)
    | BCrc(bs: int, k: int, crc: int)
    | RandBit(bs: int, crc: int)
    | OrigPtr(bs: int, crc: int, k: int, p: int)
    | Mapping1(h: Header, in16: seq<bool>)
    | Mapping2(h: Header, in16: seq<bool>, i: int, done: seq<bool>, part: seq<bool>)
    | Selector1(h: Header, inUse: seq<bool>)
    | Selector2(h: Header, inUse: seq<bool>, nGroups: int)
    | Selector3(h: Header, inUse: seq<bool>, nGroups: int, nSelectors: int, mtf: seq<nat>, j: nat)
    | Coding1(h: Header, inUse: seq<bool>, nGroups: int, selectors: seq<byte>, lens: seq<seq<byte>>)
    | Coding2(h: Header, inUse: seq<bool>, nGroups: int, selectors: seq<byte>, lens: seq<seq<byte>>, len: seq<byte>,
        curr: int)
    | Coding3(h: Header, inUse: seq<bool>, nGroups: int, selectors: seq<byte>, lens: seq<seq<byte>>, len: seq<byte>,
        curr: int)
    | Symbol(h: Header, inUse: seq<bool>, t: Tables, st: MtfState, groupNo: int, groupPos: int, zn: nat, zvec: int,
        first: bool)
    | Output(h: Header, column: seq<byte>)
    | EndHdr(k: int)
    | CombCrc(k: int, crc: int)
    | Ended(crc: int)
    | Failed(code: Code)

  predicate Stopped(d: Dec) {
    d.Output? || d.Ended? || d.Failed?
  }

  /** The number of bits the current label waits for. */
  function Need(d: Dec): (n: nat)
    requires !Stopped(d)
  {
    match d
    case RandBit(_, _) => 1
    case Mapping1(_, _) => 1
    case Mapping2(_, _, _, _, _) => 1
    case Selector1(_, _) => 3
    case Selector2(_, _, _) => 15
    case Selector3(_, _, _, _, _, _) => 1
    case Coding1(_, _, _, _, _) => 5
    case Coding2(_, _, _, _, _, _, _) => 1
    case Coding3(_, _, _, _, _, _, _) => 1
    case Symbol(_, _, _, _, _, _, zn, _, first) => if first then zn else 1
    case _ => 8
  }

  function AlphaSize(inUse: seq<bool>): (n: nat)
    requires |inUse| == 256
    ensures 2 <= n <= BZ_MAX_ALPHA_SIZE
  {
    |Used(inUse, 256)| + 2
  }

  ghost predicate GoodHeader(h: Header) {
    1 <= h.bs <= 9 && 0 <= h.crc < 0x1_0000_0000 && 0 <= h.origPtr <= 10 + 100000 * h.bs
  }

  ghost predicate GoodMap(inUse: seq<bool>) {
    |inUse| == 256 && |Used(inUse, 256)| > 0
  }

  ghost predicate Tabling(inUse: seq<bool>, nGroups: int, selectors: seq<byte>, lens: seq<seq<byte>>) {
    && GoodMap(inUse) && 2 <= nGroups <= BZ_N_GROUPS && GoodSelectors(selectors, nGroups)
    && |lens| < nGroups && GoodLengths(lens, AlphaSize(inUse))
  }

  ghost predicate PartLengths(len: seq<byte>, alphaSize: int) {
    |len| < alphaSize && forall i :: 0 <= i < |len| ==> 1 <= len[i] <= 20
  }

  ghost predicate AtSymbol(st: MtfState, n: int, limit: int) {
    |st.order| == 256 && |st.column| <= limit && (st.inRun ==> st.es >= -1 && st.N >= 1)
  }

  /** What holds of the saved locals at every label. */
  ghost predicate Ok(d: Dec) {
    match d
    case Magic(k) => 0 <= k < 4
    case BlkHdr(bs, k) => 1 <= bs <= 9 && 0 <= k < 6
    case BCrc(bs, k, crc) => 1 <= bs <= 9 && 0 <= k < 4 && 0 <= crc < Pow2(8 * k)
    case RandBit(bs, crc) => 1 <= bs <= 9 && 0 <= crc < 0x1_0000_0000
    case OrigPtr(bs, crc, k, p) => 1 <= bs <= 9 && 0 <= crc < 0x1_0000_0000 && 0 <= k < 3 && 0 <= p
    case Mapping1(h, in16) => GoodHeader(h) && |in16| < 16
    case Mapping2(h, in16, i, done, part) => GoodHeader(h) && |in16| == 16 && |part| < 16 && 0 <= i < 16
        && |done| == 16 * i
    case Selector1(h, inUse) => GoodHeader(h) && GoodMap(inUse)
    case Selector2(h, inUse, nGroups) => GoodHeader(h) && GoodMap(inUse) && 2 <= nGroups <= BZ_N_GROUPS
    case Selector3(h, inUse, nGroups, nSelectors, mtf, j) =>
      && GoodHeader(h) && GoodMap(inUse) && 2 <= nGroups <= BZ_N_GROUPS && 1 <= nSelectors <= BZ_MAX_SELECTORS
      && |mtf| < nSelectors && j < nGroups && forall i :: 0 <= i < |mtf| ==> mtf[i] < nGroups
    case Coding1(h, inUse, nGroups, selectors, lens) => GoodHeader(h) && Tabling(inUse, nGroups, selectors, lens)
    case Coding2(h, inUse, nGroups, selectors, lens, len, curr) =>
      GoodHeader(h) && Tabling(inUse, nGroups, selectors, lens) && PartLengths(len, AlphaSize(inUse)) && 1 <= curr <= 20
    case Coding3(h, inUse, nGroups, selectors, lens, len, curr) =>
      GoodHeader(h) && Tabling(inUse, nGroups, selectors, lens) && PartLengths(len, AlphaSize(inUse)) && 1 <= curr <= 20
    case Symbol(h, inUse, t, st, groupNo, groupPos, zn, zvec, first) =>
      && GoodHeader(h) && GoodMap(inUse) && GoodTables(t, AlphaSize(inUse)) && AtSymbol(st, 256, 100000 * h.bs)
      && 0 <= groupNo < |t.selectors| && 0 <= groupPos < BZ_G_SIZE && 1 <= zn <= 21 && 0 <= zvec && (first ==> zn <= 20)
    case Output(h, column) => GoodHeader(h) && h.origPtr < |column| <= 100000 * h.bs
    case EndHdr(k) => 1 <= k < 6
    case CombCrc(k, crc) => 0 <= k < 4 && 0 <= crc < Pow2(8 * k)
    case Ended(crc) => 0 <= crc < 0x1_0000_0000
    case Failed(code) => code == BZ_DATA_ERROR || code == BZ_DATA_ERROR_MAGIC || code == Unspecified
  }

  // ------------------------------------------------------------ headers

  const BZ_HDR_B: byte := 0x42
  const BZ_HDR_Z: byte := 0x5a
  const BZ_HDR_h: byte := 0x68
  const BZ_HDR_0: byte := 0x30

  function TakeMagic(d: Dec, v: nat): (d': Dec)
    requires d.Magic? && Ok(d)
    ensures Ok(d')
  {
    var k := d.k;
    if k < 3 then
      if v == [BZ_HDR_B, BZ_HDR_Z, BZ_HDR_h][k] as int then Magic(k + 1) else Failed(BZ_DATA_ERROR_MAGIC)
    else if v < BZ_HDR_0 as int + 1 || v > BZ_HDR_0 as int + 9 then Failed(BZ_DATA_ERROR_MAGIC)
    else BlkHdr(v - BZ_HDR_0 as int, 0)
  }

  function TakeBlkHdr(d: Dec, v: nat): (d': Dec)
    requires d.BlkHdr? && Ok(d)
    ensures Ok(d')
  {
    var (bs, k) := (d.bs, d.k);
    if k == 0 && v == END_MAGIC[0] as int then EndHdr(1)
    else if v != BLOCK_MAGIC[k] as int then Failed(BZ_DATA_ERROR)
    else if k < 5 then BlkHdr(bs, k + 1)
    else assert Pow2(0) == 1; BCrc(bs, 0, 0)
  }

  lemma NextByte(crc: nat, v: nat, k: nat)
    requires crc < Pow2(8 * k) && v < Pow2(8)
    ensures crc * 256 + v < Pow2(8 * (k + 1))
    ensures k == 3 ==> crc * 256 + v < 0x1_0000_0000
  {
    Pow2Values();
    Pow2Add(8 * k, 8);
    LeadingDigit(crc, v, Pow2(8 * k) - 1, 255, 256);
  }

  function TakeBCrc(d: Dec, v: nat): (d': Dec)
    requires d.BCrc? && Ok(d) && v < Pow2(8)
    ensures Ok(d')
  {
    var (bs, k, crc) := (d.bs, d.k, d.crc);
    NextByte(crc, v, k);
    if k < 3 then BCrc(bs, k + 1, crc * 256 + v) else RandBit(bs, crc * 256 + v)
  }

  function TakeRandBit(d: Dec, v: nat): (d': Dec)
    requires d.RandBit? && Ok(d)
    ensures Ok(d')
  {
    if v == 1 then Failed(Unspecified) else OrigPtr(d.bs, d.crc, 0, 0)
  }

  function TakeOrigPtr(d: Dec, v: nat): (d': Dec)
    requires d.OrigPtr? && Ok(d)
    ensures Ok(d')
  {
    var (bs, crc, k, p) := (d.bs, d.crc, d.k, d.p);
    if k < 2 then OrigPtr(bs, crc, k + 1, p * 256 + v)
    else if p * 256 + v > 10 + 100000 * bs then Failed(BZ_DATA_ERROR)
    else Mapping1(Header(bs, crc, p * 256 + v), [])
  }

  function TakeEndHdr(d: Dec, v: nat): (d': Dec)
    requires d.EndHdr? && Ok(d)
    ensures Ok(d')
  {
    var k := d.k;
    if v != END_MAGIC[k] as int then Failed(BZ_DATA_ERROR)
    else if k < 5 then EndHdr(k + 1)
    else assert Pow2(0) == 1; CombCrc(0, 0)
  }

  function TakeCombCrc(d: Dec, v: nat): (d': Dec)
    requires d.CombCrc? && Ok(d) && v < Pow2(8)
    ensures Ok(d')
  {
    var (k, crc) := (d.k, d.crc);
    NextByte(crc, v, k);
    if k < 3 then CombCrc(k + 1, crc * 256 + v) else Ended(crc * 256 + v)
  }

  // ------------------------------------------------------------ the mapping table

  function Falses(): (b: seq<bool>)
    ensures |b| == 16 && forall i :: 0 <= i < 16 ==> !b[i]
  {
    seq(16, _ => false)
  }

  /** On to the next group of sixteen that has bits to read. */
  function NextGroup(h: Header, in16: seq<bool>, i: int, done: seq<bool>): (d: Dec)
    requires GoodHeader(h) && |in16| == 16 && 0 <= i <= 16 && |done| == 16 * i
    ensures Ok(d)
    decreases 16 - i
  {
    if i == 16 then (if |Used(done, 256)| == 0 then Failed(BZ_DATA_ERROR) else Selector1(h, done))
    else if in16[i] then Mapping2(h, in16, i, done, [])
    else NextGroup(h, in16, i + 1, done + Falses())
  }

  function TakeMapping1(d: Dec, v: nat): (d': Dec)
    requires d.Mapping1? && Ok(d)
    ensures Ok(d')
  {
    var in16' := d.in16 + [v == 1];
    if |in16'| < 16 then Mapping1(d.h, in16') else NextGroup(d.h, in16', 0, [])
  }

  function TakeMapping2(d: Dec, v: nat): (d': Dec)
    requires d.Mapping2? && Ok(d)
    ensures Ok(d')
  {
    var part' := d.part + [v == 1];
    if |part'| < 16 then d.(part := part') else NextGroup(d.h, d.in16, d.i + 1, d.done + part')
  }

  // ------------------------------------------------------------ selectors and code lengths

  function TakeSelector1(d: Dec, v: nat): (d': Dec)
    requires d.Selector1? && Ok(d)
    ensures Ok(d')
  {
    if v < 2 || v > 6 then Failed(BZ_DATA_ERROR) else Selector2(d.h, d.inUse, v)
  }

  /** More selectors than the arrays hold is outside this model. */
  function TakeSelector2(d: Dec, v: nat): (d': Dec)
    requires d.Selector2? && Ok(d)
    ensures Ok(d')
  {
    if v < 1 then Failed(BZ_DATA_ERROR)
    else if v > BZ_MAX_SELECTORS then Failed(Unspecified)
    else Selector3(d.h, d.inUse, d.nGroups, v, [], 0)
  }

  /** Undoing the move-to-front coding of the selectors. */
  function UndoSelectors(pos: seq<byte>, mtf: seq<nat>): (s: seq<byte>)
    requires forall i :: 0 <= i < |mtf| ==> mtf[i] < |pos|
    ensures |s| == |mtf|
    decreases |mtf|
  {
    if mtf == [] then [] else [pos[mtf[0]]] + UndoSelectors(Front(pos, mtf[0]), mtf[1..])
  }

  lemma {:induction false} UndoneBelow(pos: seq<byte>, mtf: seq<nat>, n: int)
    requires (forall i :: 0 <= i < |mtf| ==> mtf[i] < |pos|) && forall i :: 0 <= i < |pos| ==> pos[i] < n
    ensures forall i :: 0 <= i < |mtf| ==> UndoSelectors(pos, mtf)[i] < n
    decreases |mtf|
  {
    if mtf != [] {
      UndoneBelow(Front(pos, mtf[0]), mtf[1..], n);
    }
  }

  function TakeSelector3(d: Dec, v: nat): (d': Dec)
    requires d.Selector3? && Ok(d)
    ensures Ok(d')
  {
    if v != 0 then
      if d.j + 1 >= d.nGroups then Failed(BZ_DATA_ERROR) else d.(j := d.j + 1)
    else
      var mtf' := d.mtf + [d.j];
      if |mtf'| < d.nSelectors then d.(mtf := mtf', j := 0)
      else
        UndoneBelow(FirstBytes(d.nGroups), mtf', d.nGroups);
        Coding1(d.h, d.inUse, d.nGroups, UndoSelectors(FirstBytes(d.nGroups), mtf'), [])
  }

  /** Top of the loop over code lengths: the range test. */
  function CheckLength(h: Header, inUse: seq<bool>, nGroups: int, selectors: seq<byte>, lens: seq<seq<byte>>,
      len: seq<byte>, curr: int): (d: Dec)
    requires GoodHeader(h) && Tabling(inUse, nGroups, selectors, lens) && PartLengths(len, AlphaSize(inUse))
    ensures Ok(d)
  {
    if curr < 1 || curr > 20 then Failed(BZ_DATA_ERROR) else Coding2(h, inUse, nGroups, selectors, lens, len, curr)
  }

  function TakeCoding(d: Dec, v: nat): (d': Dec)
    requires (d.Coding1? || d.Coding2? || d.Coding3?) && Ok(d)
    ensures Ok(d')
  {
    if d.Coding1? then CheckLength(d.h, d.inUse, d.nGroups, d.selectors, d.lens, [], v)
    else if d.Coding3? then
      CheckLength(d.h, d.inUse, d.nGroups, d.selectors, d.lens, d.len, if v == 0 then d.curr + 1 else d.curr - 1)
    else if v == 0 then EndLength(d.h, d.inUse, d.nGroups, d.selectors, d.lens, d.len, d.curr)
    else Coding3(d.h, d.inUse, d.nGroups, d.selectors, d.lens, d.len, d.curr)
  }

  /** A length has been read; after the last one of the last table the symbols begin. */
  function EndLength(h: Header, inUse: seq<bool>, nGroups: int, selectors: seq<byte>, lens: seq<seq<byte>>,
      len: seq<byte>, curr: int): (d: Dec)
    requires GoodHeader(h) && Tabling(inUse, nGroups, selectors, lens) && PartLengths(len, AlphaSize(inUse))
             && 1 <= curr <= 20
    ensures Ok(d)
  {
    var len' := len + [curr];
    if |len'| < AlphaSize(inUse) then CheckLength(h, inUse, nGroups, selectors, lens, len', curr)
    else
      var lens' := lens + [len'];
      assert GoodLengths(lens', AlphaSize(inUse));
      NextTable(h, inUse, nGroups, selectors, lens')
  }

  function NextTable(h: Header, inUse: seq<bool>, nGroups: int, selectors: seq<byte>, lens: seq<seq<byte>>): (d: Dec)
    requires GoodHeader(h) && GoodMap(inUse) && 2 <= nGroups <= BZ_N_GROUPS && GoodSelectors(selectors, nGroups)
    requires |lens| <= nGroups && GoodLengths(lens, AlphaSize(inUse))
    ensures Ok(d)
  {
    if |lens| < nGroups then Coding1(h, inUse, nGroups, selectors, lens)
    else StartSymbols(h, inUse, Tables(selectors, lens))
  }

  // ------------------------------------------------------------ symbols

  function MinLen(len: seq<byte>): int {
    if len == [] then 32 else Min(len[|len| - 1], MinLen(len[..|len| - 1]))
  }

  function MaxLen(len: seq<byte>): int {
    if len == [] then 0 else Max(len[|len| - 1], MaxLen(len[..|len| - 1]))
  }

  lemma {:induction false} LengthBounds(len: seq<byte>)
    ensures forall i :: 0 <= i < |len| ==> MinLen(len) <= len[i] as int <= MaxLen(len)
    ensures len != [] && (forall i :: 0 <= i < |len| ==> 1 <= len[i] <= 20) ==> 1 <= MinLen(len) <= MaxLen(len) <= 20
  {
    if len != [] {
      var t := len[..|len| - 1];
      LengthBounds(t);
      forall i | 0 <= i < |len| ensures MinLen(len) <= len[i] as int <= MaxLen(len) {
        if i < |t| { assert len[i] == t[i]; }
      }
      if t != [] && (forall i :: 0 <= i < |len| ==> 1 <= len[i] <= 20) {
        assert forall i :: 0 <= i < |t| ==> t[i] == len[i];
      }
    }
  }

  function StartSymbols(h: Header, inUse: seq<bool>, t: Tables): (d: Dec)
    requires GoodHeader(h) && GoodMap(inUse) && GoodTables(t, AlphaSize(inUse))
    ensures Ok(d)
  {
    NextSymbol(h, inUse, t, MtfState(Identity(), [], false, 0, 0), -1, 0)
  }

  /** Top of GET_MTF_VAL: every fifty symbols the next selector. */
  function NextSymbol(h: Header, inUse: seq<bool>, t: Tables, st: MtfState, groupNo: int, groupPos: int): (d: Dec)
    requires GoodHeader(h) && GoodMap(inUse) && GoodTables(t, AlphaSize(inUse)) && AtSymbol(st, 256, 100000 * h.bs)
    requires -1 <= groupNo < |t.selectors| && 0 <= groupPos < BZ_G_SIZE && (groupNo == -1 ==> groupPos == 0)
    ensures Ok(d)
  {
    if groupPos == 0 && groupNo + 1 >= |t.selectors| then Failed(BZ_DATA_ERROR)
    else
      var (g, p) := if groupPos == 0 then (groupNo + 1, BZ_G_SIZE - 1) else (groupNo, groupPos - 1);
      LengthBounds(t.lens[t.selectors[g]]);
      Symbol(h, inUse, t, st, g, p, MinLen(t.lens[t.selectors[g]]), 0, true)
  }

  function TakeSymbol(d: Dec, v: nat): (d': Dec)
    requires d.Symbol? && Ok(d)
    ensures Ok(d')
  {
    CheckCode(d, if d.first then v else 2 * d.zvec + v)
  }

  /** Top of the loop over longer codes; a place in `perm` that these tables did not fill is outside this model. */
  function CheckCode(d: Dec, zvec: nat): (d': Dec)
    requires d.Symbol? && Ok(d)
    ensures Ok(d')
  {
    var len := d.t.lens[d.t.selectors[d.groupNo]];
    LengthBounds(len);
    if d.zn > 20 then Failed(BZ_DATA_ERROR)
    else if zvec <= Limit(len, MinLen(len), MaxLen(len), d.zn) then
      var place := zvec - BaseOf(len, MinLen(len), MaxLen(len), d.zn);
      if place < 0 || place >= BZ_MAX_ALPHA_SIZE then Failed(BZ_DATA_ERROR)
      else if place >= |len| then Failed(Unspecified)
      else OnSymbol(d.h, d.inUse, d.t, d.st, d.groupNo, d.groupPos, TVector(len)[place])
    else d.(zn := d.zn + 1, zvec := zvec, first := false)
  }

  lemma MtfKeeps(st: MtfState, sym: int, eob: int, seqToUnseq: seq<byte>, limit: int)
    requires AtSymbol(st, 256, limit)
    ensures var r := MtfSymbol(st, sym, eob, seqToUnseq, limit);
            (r.Go? ==> AtSymbol(r.st, 256, limit)) && (r.Done? ==> |r.column| <= limit)
  {
  }

  function OnSymbol(h: Header, inUse: seq<bool>, t: Tables, st: MtfState, groupNo: int, groupPos: int,
      sym: int): (d: Dec)
    requires GoodHeader(h) && GoodMap(inUse) && GoodTables(t, AlphaSize(inUse)) && AtSymbol(st, 256, 100000 * h.bs)
    requires 0 <= groupNo < |t.selectors| && 0 <= groupPos < BZ_G_SIZE
    ensures Ok(d)
  {
    var seqToUnseq := Used(inUse, 256);
    MtfKeeps(st, sym, |seqToUnseq| + 1, seqToUnseq, 100000 * h.bs);
    match MtfSymbol(st, sym, |seqToUnseq| + 1, seqToUnseq, 100000 * h.bs)
    case Go(st') => NextSymbol(h, inUse, t, st', groupNo, groupPos)
    case Done(column) => Finish(h, column)
    case Bad => Failed(BZ_DATA_ERROR)
  }

  function Finish(h: Header, column: seq<byte>): (d: Dec)
    requires GoodHeader(h) && |column| <= 100000 * h.bs
    ensures Ok(d)
  {
    if h.origPtr >= |column| then Failed(BZ_DATA_ERROR) else Output(h, column)
  }

  // ------------------------------------------------------------ one step, and a run

  /** The bits have arrived: on to the next label. */
  function Take(d: Dec, v: nat): (d': Dec)
    requires !Stopped(d) && Ok(d) && v < Pow2(Need(d))
    ensures Ok(d')
  {
    hide Ok;
    match d
    case Magic(_) => TakeMagic(d, v)
    case BlkHdr(_, _) => TakeBlkHdr(d, v)
    case BCrc(_, _, _) => TakeBCrc(d, v)
    case RandBit(_, _) => TakeRandBit(d, v)
    case OrigPtr(_, _, _, _) => TakeOrigPtr(d, v)
    case Mapping1(_, _) => TakeMapping1(d, v)
    case Mapping2(_, _, _, _, _) => TakeMapping2(d, v)
    case Selector1(_, _) => TakeSelector1(d, v)
    case Selector2(_, _, _) => TakeSelector2(d, v)
    case Selector3(_, _, _, _, _, _) => TakeSelector3(d, v)
    case Coding1(_, _, _, _, _) => TakeCoding(d, v)
    case Coding2(_, _, _, _, _, _, _) => TakeCoding(d, v)
    case Coding3(_, _, _, _, _, _, _) => TakeCoding(d, v)
    case Symbol(_, _, _, _, _, _, _, _, _) => TakeSymbol(d, v)
    case EndHdr(_) => TakeEndHdr(d, v)
    case CombCrc(_, _) => TakeCombCrc(d, v)
  }

  lemma NeedsSome(d: Dec)
    requires !Stopped(d) && Ok(d)
    ensures 1 <= Need(d) <= 20
  {
  }

  /** All the bits there are: as far as they carry the decoder, and what is left of them. */
  ghost function Run(d: Dec, bits: seq<bool>): (r: (Dec, seq<bool>))
    requires Ok(d)
    ensures Ok(r.0)
    decreases |bits|
  {
    if Stopped(d) || |bits| < Need(d) then (d, bits)
    else
      NeedsSome(d);
      ValBound(bits[..Need(d)]);
      Run(Take(d, Val(bits[..Need(d)])), bits[Need(d)..])
  }
}
