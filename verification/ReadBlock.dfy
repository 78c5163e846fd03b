/**
 * Reading what was written, section by section: the decoder consumes exactly a section's bits and holds its content.
 */
module ReadBlock {
  import opened Base
  import opened Counting
  import opened Bits
  import opened PrefixCode
  import opened MoveToFront
  import opened GenerateMtf
  import opened BlockFormat
  import opened Decoder

  /** The bits a label waits for arrive. */
  lemma Eat(d: Dec, w: seq<bool>, rest: seq<bool>)
    requires Ok(d) && !Stopped(d) && |w| == Need(d)
    ensures Val(w) < Pow2(Need(d))
    ensures Run(d, w + rest) == Run(Take(d, Val(w)), rest)
  {
    ValBound(w);
    NeedsSome(d);
    hide Take, Need, Ok, Val;
    assert (w + rest)[..Need(d)] == w && (w + rest)[Need(d)..] == rest;
  }

  lemma Word(d: Dec, v: nat, rest: seq<bool>)
    requires Ok(d) && !Stopped(d) && v < Pow2(Need(d))
    ensures Run(d, ToBits(v, Need(d)) + rest) == Run(Take(d, v), rest)
  {
    Eat(d, ToBits(v, Need(d)), rest);
    ValOfBits(v, Need(d));
  }

  lemma Bit(d: Dec, b: bool, rest: seq<bool>)
    requires Ok(d) && !Stopped(d) && Need(d) == 1
    ensures var v := if b then 1 else 0; v < Pow2(Need(d)) && Run(d, [b] + rest) == Run(Take(d, v), rest)
  {
    Eat(d, [b], rest);
    assert Val([b]) == if b then 1 else 0 by { assert Val([]) == 0; }
    Pow2Values();
  }

  // ------------------------------------------------------------ headers

  function StreamMagic(bs: int): seq<byte>
    requires 1 <= bs <= 9
  {
    [BZ_HDR_B, BZ_HDR_Z, BZ_HDR_h, BZ_HDR_0 + bs]
  }

  lemma BytesAt(s: seq<byte>, k: nat, rest: seq<bool>)
    requires k < |s|
    ensures BytesBits(s[k..]) + rest == ToBits(s[k], 8) + (BytesBits(s[k + 1..]) + rest)
    ensures k + 1 == |s| ==> BytesBits(s[k + 1..]) + rest == rest
  {
    hide ToBits;
    assert s[k..][1..] == s[k + 1..];
  }

  lemma {:induction false} ReadMagic(bs: int, k: nat, rest: seq<bool>)
    requires 1 <= bs <= 9 && k < 4
    ensures Run(Magic(k), BytesBits(StreamMagic(bs)[k..]) + rest) == Run(BlkHdr(bs, 0), rest)
    decreases 4 - k
  {
    Pow2Values();
    BytesAt(StreamMagic(bs), k, rest);
    hide Run, ToBits, BytesBits;
    Word(Magic(k), StreamMagic(bs)[k], BytesBits(StreamMagic(bs)[k + 1..]) + rest);
    if k < 3 {
      ReadMagic(bs, k + 1, rest);
    }
  }

  lemma {:induction false} ReadBlkHdr(bs: int, k: nat, rest: seq<bool>)
    requires 1 <= bs <= 9 && k < 6
    ensures Ok(BCrc(bs, 0, 0))
    ensures Run(BlkHdr(bs, k), BytesBits(BLOCK_MAGIC[k..]) + rest) == Run(BCrc(bs, 0, 0), rest)
    decreases 6 - k
  {
    Pow2Values();
    BytesAt(BLOCK_MAGIC, k, rest);
    hide Run, ToBits, BytesBits, Pow2;
    Word(BlkHdr(bs, k), BLOCK_MAGIC[k], BytesBits(BLOCK_MAGIC[k + 1..]) + rest);
    if k < 5 {
      ReadBlkHdr(bs, k + 1, rest);
    }
  }

  /** The end marker shares the first label with the block marker. */
  lemma {:induction false} ReadEndHdr(d: Dec, k: nat, rest: seq<bool>)
    requires k < 6 && Ok(d) && if k == 0 then d.BlkHdr? && d.k == 0 else d == EndHdr(k)
    ensures Ok(CombCrc(0, 0))
    ensures Run(d, BytesBits(END_MAGIC[k..]) + rest) == Run(CombCrc(0, 0), rest)
    decreases 6 - k
  {
    Pow2Values();
    BytesAt(END_MAGIC, k, rest);
    hide Run, ToBits, BytesBits;
    Word(d, END_MAGIC[k], BytesBits(END_MAGIC[k + 1..]) + rest);
    if k < 5 {
      ReadEndHdr(EndHdr(k + 1), k + 1, rest);
    }
  }

  /** Bytes gathered one by one spell the number their bits spell together. */
  lemma GatherByte(pre: seq<bool>, w: seq<bool>, rest: seq<bool>)
    requires 8 <= |w|
    ensures Val(pre + w[..8]) == Val(pre) * 256 + Val(w[..8])
    ensures pre + w == (pre + w[..8]) + w[8..] && w + rest == w[..8] + (w[8..] + rest)
    ensures |w| == 8 ==> pre + w[..8] == pre + w && w[8..] + rest == rest
  {
    Pow2Values();
    ValAppend(pre, w[..8]);
  }

  lemma CrcByte(bs: int, k: nat, pre: seq<bool>, b: seq<bool>, rest: seq<bool>)
    requires 1 <= bs <= 9 && k < 4 && |pre| == 8 * k && |b| == 8 && Val(pre + b) == Val(pre) * 256 + Val(b)
    ensures Ok(BCrc(bs, k, Val(pre)))
    ensures Run(BCrc(bs, k, Val(pre)), b + rest)
            == Run(if k < 3 then BCrc(bs, k + 1, Val(pre + b)) else RandBit(bs, Val(pre + b)), rest)
  {
    ValBound(pre);
    hide Run, Val, Pow2;
    Eat(BCrc(bs, k, Val(pre)), b, rest);
  }

  lemma {:induction false} ReadCrc(bs: int, k: nat, pre: seq<bool>, w: seq<bool>, rest: seq<bool>)
    requires 1 <= bs <= 9 && k < 4 && |pre| == 8 * k && |w| == 32 - 8 * k
    ensures Ok(BCrc(bs, k, Val(pre))) && Ok(RandBit(bs, Val(pre + w)))
    ensures Run(BCrc(bs, k, Val(pre)), w + rest) == Run(RandBit(bs, Val(pre + w)), rest)
    decreases 4 - k
  {
    GatherByte(pre, w, rest);
    CrcByte(bs, k, pre, w[..8], w[8..] + rest);
    Word32(pre + w);
    hide *;
    if k < 3 {
      ReadCrc(bs, k + 1, pre + w[..8], w[8..], rest);
    }
  }

  lemma Word32(w: seq<bool>)
    requires |w| == 32
    ensures Val(w) < 0x1_0000_0000
  {
    Pow2Values();
    ValBound(w);
  }

  lemma CombCrcByte(k: nat, pre: seq<bool>, b: seq<bool>, rest: seq<bool>)
    requires k < 4 && |pre| == 8 * k && |b| == 8 && Val(pre + b) == Val(pre) * 256 + Val(b)
    ensures Ok(CombCrc(k, Val(pre)))
    ensures Run(CombCrc(k, Val(pre)), b + rest)
            == Run(if k < 3 then CombCrc(k + 1, Val(pre + b)) else Ended(Val(pre + b)), rest)
  {
    ValBound(pre);
    hide Run, Val, Pow2;
    Eat(CombCrc(k, Val(pre)), b, rest);
  }

  lemma {:induction false} ReadCombCrc(k: nat, pre: seq<bool>, w: seq<bool>, rest: seq<bool>)
    requires k < 4 && |pre| == 8 * k && |w| == 32 - 8 * k
    ensures Ok(CombCrc(k, Val(pre))) && Ok(Ended(Val(pre + w)))
    ensures Run(CombCrc(k, Val(pre)), w + rest) == Run(Ended(Val(pre + w)), rest)
    decreases 4 - k
  {
    GatherByte(pre, w, rest);
    CombCrcByte(k, pre, w[..8], w[8..] + rest);
    Word32(pre + w);
    hide *;
    if k < 3 {
      ReadCombCrc(k + 1, pre + w[..8], w[8..], rest);
    }
  }

  lemma OrigPtrByte(bs: int, crc: int, k: nat, pre: seq<bool>, b: seq<bool>, rest: seq<bool>)
    requires 1 <= bs <= 9 && 0 <= crc < 0x1_0000_0000 && k < 3 && |b| == 8 && Val(pre + b) == Val(pre) * 256 + Val(b)
    requires k == 2 ==> Val(pre + b) <= 10 + 100000 * bs
    ensures Run(OrigPtr(bs, crc, k, Val(pre)), b + rest) ==
            Run(if k < 2 then OrigPtr(bs, crc, k + 1, Val(pre + b))
                else Mapping1(Header(bs, crc, Val(pre + b)), []), rest)
  {
    hide Run, Val, Pow2;
    Eat(OrigPtr(bs, crc, k, Val(pre)), b, rest);
  }

  lemma {:induction false} ReadOrigPtr(bs: int, crc: int, k: nat, pre: seq<bool>, w: seq<bool>, rest: seq<bool>)
    requires 1 <= bs <= 9 && 0 <= crc < 0x1_0000_0000 && k < 3 && |pre| == 8 * k && |w| == 24 - 8 * k
    requires Val(pre + w) <= 10 + 100000 * bs
    ensures Run(OrigPtr(bs, crc, k, Val(pre)), w + rest) == Run(Mapping1(Header(bs, crc, Val(pre + w)), []), rest)
    decreases 3 - k
  {
    GatherByte(pre, w, rest);
    hide Run, Val, Pow2;
    OrigPtrByte(bs, crc, k, pre, w[..8], w[8..] + rest);
    if k < 2 {
      ReadOrigPtr(bs, crc, k + 1, pre + w[..8], w[8..], rest);
    }
  }

  // ------------------------------------------------------------ the mapping table

  lemma {:induction false} ReadSummary(h: Header, in16: seq<bool>, s: seq<bool>, rest: seq<bool>)
    requires GoodHeader(h) && |in16| + |s| == 16 && s != []
    ensures Run(Mapping1(h, in16), s + rest) == Run(NextGroup(h, in16 + s, 0, []), rest)
    decreases |s|
  {
    hide Run, NextGroup;
    Bit(Mapping1(h, in16), s[0], s[1..] + rest);
    assert s + rest == [s[0]] + (s[1..] + rest);
    assert in16 + [s[0]] + s[1..] == in16 + s;
    if |s| > 1 {
      ReadSummary(h, in16 + [s[0]], s[1..], rest);
    } else {
      assert s[1..] + rest == rest && in16 + [s[0]] == in16 + s;
    }
  }

  lemma {:induction false} ReadGroup(d: Dec, s: seq<bool>, rest: seq<bool>)
    requires d.Mapping2? && Ok(d) && |d.part| + |s| == 16
    ensures Run(d, s + rest) == Run(NextGroup(d.h, d.in16, d.i + 1, d.done + (d.part + s)), rest)
    decreases |s|
  {
    hide Run, NextGroup;
    Bit(d, s[0], s[1..] + rest);
    assert s + rest == [s[0]] + (s[1..] + rest);
    assert d.part + [s[0]] + s[1..] == d.part + s;
    if |s| > 1 {
      ReadGroup(d.(part := d.part + [s[0]]), s[1..], rest);
    } else {
      assert s[1..] + rest == rest && d.part + [s[0]] == d.part + s;
    }
  }

  lemma NoneInUse(part: seq<bool>)
    requires |part| == 16 && true !in part
    ensures part == Falses()
  {
    forall k | 0 <= k < 16 ensures !part[k] {
      assert part[k] in part;
    }
  }

  lemma GroupAt(h: Header, in16: seq<bool>, i: int, done: seq<bool>)
    requires GoodHeader(h) && |in16| == 16 && 0 <= i < 16 && |done| == 16 * i
    ensures NextGroup(h, in16, i, done) ==
            if in16[i] then Mapping2(h, in16, i, done, []) else NextGroup(h, in16, i + 1, done + Falses())
    ensures in16[i] ==> Ok(Mapping2(h, in16, i, done, []))
  {
  }

  lemma TailAt(u: seq<bool>, i: nat, rest: seq<bool>)
    requires |u| == 256 && i < 16
    ensures var part := u[16 * i..16 * i + 16];
            && MappingTail(u, i) + rest == (if true in part then part + (MappingTail(u, i + 1) + rest)
                else MappingTail(u, i + 1) + rest)
            && (Summary(u)[i] <==> true in part)
            && u[..16 * i] + part == u[..16 * (i + 1)] && [] + part == part
  {
    var part, tail := u[16 * i..16 * i + 16], MappingTail(u, i + 1);
    assert MappingTail(u, i) == (if true in part then part else []) + tail;
    assert Summary(u)[i] <==> true in part;
    hide *;
    Assoc(if true in part then part else [], tail, rest);
    SliceJoins(u, 16 * i, 16 * i + 16);
    assert [] + (tail + rest) == tail + rest && [] + part == part;
  }

  lemma SliceJoins(u: seq<bool>, i: nat, j: nat)
    requires i <= j <= |u|
    ensures u[..i] + u[i..j] == u[..j]
  {
  }

  /** One group of sixteen: its bits if one of them is set, nothing otherwise. */
  lemma ReadMapPart(h: Header, in16: seq<bool>, i: nat, done: seq<bool>, part: seq<bool>, tail: seq<bool>)
    requires GoodHeader(h) && |in16| == 16 && i < 16 && |done| == 16 * i && |part| == 16
    requires in16[i] <==> true in part
    ensures Run(NextGroup(h, in16, i, done), if true in part then part + tail else tail)
            == Run(NextGroup(h, in16, i + 1, done + part), tail)
  {
    hide *;
    GroupAt(h, in16, i, done);
    if true in part {
      assert [] + part == part;
      ReadGroup(Mapping2(h, in16, i, done, []), part, tail);
    } else {
      NoneInUse(part);
    }
  }

  lemma ReadMapGroup(h: Header, u: seq<bool>, i: nat, rest: seq<bool>)
    requires GoodHeader(h) && |u| == 256 && i < 16
    ensures Run(NextGroup(h, Summary(u), i, u[..16 * i]), MappingTail(u, i) + rest) ==
            Run(NextGroup(h, Summary(u), i + 1, u[..16 * (i + 1)]), MappingTail(u, i + 1) + rest)
  {
    hide *;
    TailAt(u, i, rest);
    ReadMapPart(h, Summary(u), i, u[..16 * i], u[16 * i..16 * i + 16], MappingTail(u, i + 1) + rest);
  }

  lemma {:induction false} ReadMapping(h: Header, u: seq<bool>, i: nat, rest: seq<bool>)
    requires GoodHeader(h) && |u| == 256 && i <= 16
    ensures Run(NextGroup(h, Summary(u), i, u[..16 * i]), MappingTail(u, i) + rest)
            == Run(NextGroup(h, Summary(u), 16, u), rest)
    decreases 16 - i
  {
    if i == 16 {
      assert u[..256] == u && [] + rest == rest;
    } else {
      hide *;
      ReadMapGroup(h, u, i, rest);
      ReadMapping(h, u, i + 1, rest);
    }
  }

  // ------------------------------------------------------------ selectors

  lemma {:induction false} ReadUnary(d: Dec, m: nat, rest: seq<bool>)
    requires d.Selector3? && Ok(d) && d.j + m < d.nGroups
    ensures Run(d, Ones(m) + ([false] + rest)) == Run(TakeSelector3(d.(j := d.j + m), 0), rest)
    decreases m
  {
    hide Run, UndoSelectors, FirstBytes;
    if m == 0 {
      Bit(d, false, rest);
      assert [] + ([false] + rest) == [false] + rest;
    } else {
      Bit(d, true, Ones(m - 1) + ([false] + rest));
      assert Ones(m) + ([false] + rest) == [true] + (Ones(m - 1) + ([false] + rest));
      ReadUnary(d.(j := d.j + 1), m - 1, rest);
    }
  }

  lemma {:induction false} ReadSelectors(d: Dec, rem: seq<nat>, rest: seq<bool>)
    requires d.Selector3? && Ok(d) && d.j == 0 && |d.mtf| + |rem| == d.nSelectors
    requires forall i :: 0 <= i < |rem| ==> rem[i] < d.nGroups
    ensures var pos, m := FirstBytes(d.nGroups), d.mtf + rem;
            && Ok(Coding1(d.h, d.inUse, d.nGroups, UndoSelectors(pos, m), []))
            && Run(d, SelectorBits(rem) + rest)
                == Run(Coding1(d.h, d.inUse, d.nGroups, UndoSelectors(pos, m), []), rest)
    decreases |rem|
  {
    hide Run, UndoSelectors, FirstBytes, Ones;
    var more := SelectorBits(rem[1..]) + rest;
    assert SelectorBits(rem) + rest == Ones(rem[0]) + ([false] + more);
    ReadUnary(d, rem[0], more);
    assert d.mtf + [rem[0]] + rem[1..] == d.mtf + rem;
    if |rem| > 1 {
      ReadSelectors(d.(mtf := d.mtf + [rem[0]]), rem[1..], rest);
    } else {
      assert d.mtf + [rem[0]] == d.mtf + rem;
      assert rem[1..] == [] && more == rest;
    }
  }

  /** The list of tables ends as the encoder's did, and the same tables come out. */
  lemma {:induction false} SelectorsUndone(pos: seq<byte>, selectors: seq<byte>)
    requires Within(selectors, pos)
    ensures var m := SelectorMtf(pos, selectors);
            (forall i :: 0 <= i < |m| ==> m[i] < |pos|) && UndoSelectors(pos, m) == selectors
    decreases |selectors|
  {
    if selectors != [] {
      WithinTail(selectors, pos);
      var j := IndexOf(pos, selectors[0]);
      SelectorsUndone(Front(pos, j), selectors[1..]);
      hide Within, Front, IndexOf;
      var m := SelectorMtf(pos, selectors);
      assert m[1..] == SelectorMtf(Front(pos, j), selectors[1..]);
      assert selectors == [selectors[0]] + selectors[1..];
    }
  }

  // ------------------------------------------------------------ code lengths

  ghost predicate Reading(h: Header, inUse: seq<bool>, nGroups: int, selectors: seq<byte>, lens: seq<seq<byte>>,
      len: seq<byte>) {
    GoodHeader(h) && Tabling(inUse, nGroups, selectors, lens) && PartLengths(len, AlphaSize(inUse))
  }

  lemma LengthStep(h: Header, inUse: seq<bool>, nGroups: int, selectors: seq<byte>, lens: seq<seq<byte>>,
      len: seq<byte>,
                   curr: int, down: bool, rest: seq<bool>)
    requires Reading(h, inUse, nGroups, selectors, lens, len) && 1 <= curr <= 20
    ensures Run(Coding2(h, inUse, nGroups, selectors, lens, len, curr), [true, down] + rest) ==
            Run(CheckLength(h, inUse, nGroups, selectors, lens, len, if down then curr - 1 else curr + 1), rest)
  {
    hide Run, Tabling, GoodHeader, PartLengths;
    Bit(Coding2(h, inUse, nGroups, selectors, lens, len, curr), true, [down] + rest);
    Bit(Coding3(h, inUse, nGroups, selectors, lens, len, curr), down, rest);
    assert [true, down] + rest == [true] + ([down] + rest);
  }

  lemma LengthEnd(h: Header, inUse: seq<bool>, nGroups: int, selectors: seq<byte>, lens: seq<seq<byte>>, len: seq<byte>,
                  curr: int, rest: seq<bool>)
    requires Reading(h, inUse, nGroups, selectors, lens, len) && 1 <= curr <= 20
    ensures Run(Coding2(h, inUse, nGroups, selectors, lens, len, curr), [false] + rest) ==
            Run(EndLength(h, inUse, nGroups, selectors, lens, len, curr), rest)
  {
    hide Run, Tabling, GoodHeader, PartLengths, EndLength;
    Bit(Coding2(h, inUse, nGroups, selectors, lens, len, curr), false, rest);
  }

  lemma {:induction false} ReadLength(h: Header, inUse: seq<bool>, nGroups: int, selectors: seq<byte>,
      lens: seq<seq<byte>>,
                                      len: seq<byte>, curr: int, target: int, rest: seq<bool>)
    requires Reading(h, inUse, nGroups, selectors, lens, len) && 1 <= curr <= 20 && 1 <= target <= 20
    ensures Run(CheckLength(h, inUse, nGroups, selectors, lens, len, curr), Steps(curr, target) + ([false] + rest)) ==
            Run(EndLength(h, inUse, nGroups, selectors, lens, len, target), rest)
    decreases if curr < target then target - curr else curr - target
  {
    hide Run, EndLength, Tabling, GoodHeader, PartLengths;
    if curr == target {
      LengthEnd(h, inUse, nGroups, selectors, lens, len, curr, rest);
      assert [] + ([false] + rest) == [false] + rest;
    } else {
      var next := if curr < target then curr + 1 else curr - 1;
      var more := Steps(next, target) + ([false] + rest);
      LengthStep(h, inUse, nGroups, selectors, lens, len, curr, curr > target, more);
      assert Steps(curr, target) + ([false] + rest) == [true, curr > target] + more;
      ReadLength(h, inUse, nGroups, selectors, lens, len, next, target, rest);
    }
  }

  /** The rest of one table. */
  lemma {:induction false} ReadLengths(h: Header, inUse: seq<bool>, nGroups: int, selectors: seq<byte>,
      lens: seq<seq<byte>>,
                                       len: seq<byte>, curr: int, rem: seq<byte>, rest: seq<bool>)
    requires Reading(h, inUse, nGroups, selectors, lens, len) && 1 <= curr <= 20
    requires |len| + |rem| == AlphaSize(inUse) && forall i :: 0 <= i < |rem| ==> 1 <= rem[i] <= 20
    ensures GoodLengths(lens + [len + rem], AlphaSize(inUse))
    ensures Run(CheckLength(h, inUse, nGroups, selectors, lens, len, curr), DeltaBits(curr, rem) + rest) ==
            Run(NextTable(h, inUse, nGroups, selectors, lens + [len + rem]), rest)
    decreases |rem|
  {
    TableDone(inUse, nGroups, selectors, lens, len, rem);
    var more := DeltaBits(rem[0], rem[1..]) + rest;
    assert DeltaBits(curr, rem) + rest == Steps(curr, rem[0]) + ([false] + more);
    assert len + [rem[0]] + rem[1..] == len + rem;
    hide Run, NextTable, GoodHeader, Steps, Tabling, GoodLengths, DeltaBits, Used;
    ReadLength(h, inUse, nGroups, selectors, lens, len, curr, rem[0], more);
    if |rem| > 1 {
      ReadLengths(h, inUse, nGroups, selectors, lens, len + [rem[0]], rem[0], rem[1..], rest);
    } else {
      assert rem[1..] == [] && more == rest && len + [rem[0]] == len + rem;
    }
  }

  lemma TableDone(inUse: seq<bool>, nGroups: int, selectors: seq<byte>, lens: seq<seq<byte>>, len: seq<byte>,
      rem: seq<byte>)
    requires Tabling(inUse, nGroups, selectors, lens) && PartLengths(len, AlphaSize(inUse))
    requires |len| + |rem| == AlphaSize(inUse) && forall i :: 0 <= i < |rem| ==> 1 <= rem[i] <= 20
    ensures GoodLengths(lens + [len + rem], AlphaSize(inUse))
  {
  }

  lemma ReadTable(h: Header, inUse: seq<bool>, nGroups: int, selectors: seq<byte>, lens: seq<seq<byte>>, len: seq<byte>,
      rest: seq<bool>)
    requires GoodHeader(h) && Tabling(inUse, nGroups, selectors, lens) && |len| == AlphaSize(inUse) && Lengths(len)
    ensures |lens + [len]| <= nGroups && GoodLengths(lens + [len], AlphaSize(inUse))
    ensures Run(Coding1(h, inUse, nGroups, selectors, lens), ToBits(len[0], 5) + (DeltaBits(len[0], len) + rest)) ==
            Run(NextTable(h, inUse, nGroups, selectors, lens + [len]), rest)
  {
    Pow2Values();
    assert len[0] < 32 && [] + len == len;
    hide Run, NextTable, GoodHeader, DeltaBits, GoodSelectors, GoodLengths, GoodMap, Pow2, ToBits, Used, Lengths;
    Word(Coding1(h, inUse, nGroups, selectors, lens), len[0], DeltaBits(len[0], len) + rest);
    LengthsIn(len);
    ReadLengths(h, inUse, nGroups, selectors, lens, [], len[0], len, rest);
  }

  lemma LengthsIn(len: seq<byte>)
    requires Lengths(len)
    ensures forall i :: 0 <= i < |len| ==> 1 <= len[i] <= 20
  {
  }

  lemma {:induction false} ReadTables(h: Header, inUse: seq<bool>, nGroups: int, selectors: seq<byte>,
      lens: seq<seq<byte>>, rem: seq<seq<byte>>, rest: seq<bool>)
    requires GoodHeader(h) && Tabling(inUse, nGroups, selectors, lens) && |lens| + |rem| == nGroups
    requires GoodLengths(rem, AlphaSize(inUse))
    ensures GoodTables(Tables(selectors, lens + rem), AlphaSize(inUse))
    ensures Run(Coding1(h, inUse, nGroups, selectors, lens), TablesBits(rem) + rest) ==
            Run(StartSymbols(h, inUse, Tables(selectors, lens + rem)), rest)
    decreases |rem|
  {
    hide *;
    TablesFacts(inUse, nGroups, selectors, lens, rem);
    var more := TablesBits(rem[1..]) + rest;
    FirstTable(rem, rest);
    ReadTable(h, inUse, nGroups, selectors, lens, rem[0], more);
    AfterTable(h, inUse, nGroups, selectors, lens + [rem[0]]);
    assert lens + [rem[0]] + rem[1..] == lens + rem;
    if |rem| > 1 {
      ReadTables(h, inUse, nGroups, selectors, lens + [rem[0]], rem[1..], rest);
    } else {
      assert lens + [rem[0]] == lens + rem;
    }
  }

  lemma TablesFacts(inUse: seq<bool>, nGroups: int, selectors: seq<byte>, lens: seq<seq<byte>>, rem: seq<seq<byte>>)
    requires Tabling(inUse, nGroups, selectors, lens) && |lens| + |rem| == nGroups
    requires GoodLengths(rem, AlphaSize(inUse))
    ensures |rem| >= 1 && |rem[0]| == AlphaSize(inUse) && Lengths(rem[0]) && GoodLengths(rem[1..], AlphaSize(inUse))
    ensures forall t :: 0 <= t < |rem| ==> rem[t] != []
    ensures |rem| > 1 ==> Tabling(inUse, nGroups, selectors, lens + [rem[0]])
    ensures GoodTables(Tables(selectors, lens + rem), AlphaSize(inUse))
    ensures GoodLengths(lens + [rem[0]], AlphaSize(inUse)) && GoodMap(inUse) && GoodSelectors(selectors, nGroups)
            && 2 <= nGroups <= BZ_N_GROUPS
  {
    hide GoodSelectors, AlphaSize, GoodMap;
    MapSize(inUse);
  }

  lemma MapSize(inUse: seq<bool>)
    requires GoodMap(inUse)
    ensures AlphaSize(inUse) >= 1
  {
  }

  lemma FirstTable(lens: seq<seq<byte>>, rest: seq<bool>)
    requires lens != [] && forall t :: 0 <= t < |lens| ==> lens[t] != []
    ensures TablesBits(lens) + rest
            == ToBits(lens[0][0], 5) + (DeltaBits(lens[0][0], lens[0]) + (TablesBits(lens[1..]) + rest))
    ensures |lens| == 1 ==> TablesBits(lens[1..]) + rest == rest
  {
    hide ToBits, DeltaBits;
    var (a, b, c) := (ToBits(lens[0][0], 5), DeltaBits(lens[0][0], lens[0]), TablesBits(lens[1..]));
    assert TablesBits(lens) == a + (b + c);
    assert |lens| == 1 ==> c == [];
    hide TablesBits;
    Assoc(a, b + c, rest);
    Assoc(b, c, rest);
  }

  lemma AfterTable(h: Header, inUse: seq<bool>, nGroups: int, selectors: seq<byte>, lens: seq<seq<byte>>)
    requires GoodHeader(h) && GoodMap(inUse) && 2 <= nGroups <= BZ_N_GROUPS && GoodSelectors(selectors, nGroups)
    requires |lens| <= nGroups && GoodLengths(lens, AlphaSize(inUse))
    ensures |lens| < nGroups ==>
            NextTable(h, inUse, nGroups, selectors, lens) == Coding1(h, inUse, nGroups, selectors, lens)
    ensures |lens| == nGroups ==>
            && GoodTables(Tables(selectors, lens), AlphaSize(inUse))
            && NextTable(h, inUse, nGroups, selectors, lens) == StartSymbols(h, inUse, Tables(selectors, lens))
  {
    hide StartSymbols, GoodHeader, GoodMap, GoodSelectors, AlphaSize;
  }

  // ------------------------------------------------------------ symbols

  /** The lengths that the current group is coded with. */
  function CodeTable(d: Dec): (len: seq<byte>)
    requires d.Symbol? && Ok(d)
    ensures Lengths(len)
  {
    d.t.lens[d.t.selectors[d.groupNo]]
  }

  lemma CodeTooShort(d: Dec, s: nat, rest: seq<bool>)
    requires d.Symbol? && Ok(d) && s < |CodeTable(d)| && Kraft(CodeTable(d)) <= Pow2(20)
    requires MinLen(CodeTable(d)) <= d.zn < CodeTable(d)[s] as int
    ensures CheckCode(d, Val(CodeBits(CodeTable(d), s)[..d.zn]))
            == d.(zn := d.zn + 1, zvec := Val(CodeBits(CodeTable(d), s)[..d.zn]), first := false)
  {
    hide Val, CodeBits, Limit, BaseOf, Kraft, MinLen, MaxLen, TVector, Pow2, GoodMap, AtSymbol, OnSymbol;
    var len := CodeTable(d);
    LengthBounds(len);
    CodeDecodes(len, MinLen(len), MaxLen(len), s, d.zn);
  }

  lemma CodeComplete(d: Dec, s: nat)
    requires d.Symbol? && Ok(d) && s < |CodeTable(d)| && Kraft(CodeTable(d)) <= Pow2(20)
    requires MinLen(CodeTable(d)) <= d.zn == CodeTable(d)[s] as int
    ensures CheckCode(d, Val(CodeBits(CodeTable(d), s))) == OnSymbol(d.h, d.inUse, d.t, d.st, d.groupNo, d.groupPos, s)
  {
    hide Val, CodeBits, Limit, BaseOf, Kraft, MinLen, MaxLen, TVector, Pow2, GoodMap, AtSymbol, OnSymbol, Place;
    var len := CodeTable(d);
    LengthBounds(len);
    CodeDecodes(len, MinLen(len), MaxLen(len), s, d.zn);
    assert Places(len)[s] == Place(len, s);
  }

  /** One more bit of a code. */
  lemma CodeBit(d: Dec, zvec: nat, b: bool, rest: seq<bool>)
    requires d.Symbol? && Ok(d) && d.zn <= 20
    ensures var d' := d.(zn := d.zn + 1, zvec := zvec, first := false);
            Ok(d') && Run(d', [b] + rest) == Run(CheckCode(d', 2 * zvec + if b then 1 else 0), rest)
  {
    hide Run, CheckCode, GoodTables, GoodHeader, GoodMap, AtSymbol;
    Bit(d.(zn := d.zn + 1, zvec := zvec, first := false), b, rest);
  }

  /** The decoder in the middle of a code, `zn` of its bits read. */
  lemma {:induction false} ReadCode(d: Dec, s: nat, rest: seq<bool>)
    requires d.Symbol? && Ok(d) && s < |CodeTable(d)| && Kraft(CodeTable(d)) <= Pow2(20)
    requires MinLen(CodeTable(d)) <= d.zn <= CodeTable(d)[s] as int
    ensures Run(CheckCode(d, Val(CodeBits(CodeTable(d), s)[..d.zn])), CodeBits(CodeTable(d), s)[d.zn..] + rest) ==
            Run(OnSymbol(d.h, d.inUse, d.t, d.st, d.groupNo, d.groupPos, s), rest)
    decreases 21 - d.zn
  {
    hide *;
    var len := CodeTable(d);
    var w := CodeBits(len, s);
    LengthsIn(len);
    if d.zn < len[s] as int {
      CodeGoesOn(w, d.zn, rest);
      CodeTooShort(d, s, rest);
      var d' := d.(zn := d.zn + 1, zvec := Val(w[..d.zn]), first := false);
      CodeBit(d, Val(w[..d.zn]), w[d.zn], w[d.zn + 1..] + rest);
      SameTable(d, d');
      ReadCode(d', s, rest);
    } else {
      assert w[..d.zn] == w && w[d.zn..] + rest == rest;
      CodeComplete(d, s);
    }
  }

  lemma SameTable(d: Dec, d': Dec)
    requires d.Symbol? && d'.Symbol? && Ok(d) && Ok(d') && d'.t == d.t && d'.groupNo == d.groupNo
    ensures CodeTable(d') == CodeTable(d)
  {
  }

  lemma CodeGoesOn(w: seq<bool>, n: nat, rest: seq<bool>)
    requires n < |w|
    ensures w[n..] + rest == [w[n]] + (w[n + 1..] + rest)
    ensures Val(w[..n + 1]) == 2 * Val(w[..n]) + if w[n] then 1 else 0
  {
    assert w[..n + 1][..n] == w[..n];
  }

  /** What must hold while the symbols of a block are read. */
  ghost predicate Symbolic(h: Header, inUse: seq<bool>, t: Tables, syms: seq<int>) {
    && GoodHeader(h) && GoodMap(inUse) && GoodTables(t, AlphaSize(inUse)) && Decodable(t.lens) && Codable(t, syms)
  }

  /** The `k`-th symbol, wherever its group stands. */
  lemma ReadSymbol(h: Header, inUse: seq<bool>, t: Tables, st: MtfState, groupNo: int, groupPos: int, syms: seq<int>,
      k: nat, rest: seq<bool>)
      returns (g: int, p: int)
    requires Symbolic(h, inUse, t, syms) && AtSymbol(st, 256, 100000 * h.bs) && k < |syms|
    requires -1 <= groupNo < |t.selectors| && 0 <= groupPos < 50 && k == 50 * (groupNo + 1) - groupPos
    ensures 0 <= g < |t.selectors| && 0 <= p < 50 && k + 1 == 50 * (g + 1) - p
    ensures Run(NextSymbol(h, inUse, t, st, groupNo, groupPos), CodesFrom(t, syms, k) + rest) ==
            Run(OnSymbol(h, inUse, t, st, g, p, syms[k]), CodesFrom(t, syms, k + 1) + rest)
  {
    g, p := if groupPos == 0 then groupNo + 1 else groupNo, if groupPos == 0 then 49 else groupPos - 1;
    assert g == k / 50;
    var d, more := NextSymbol(h, inUse, t, st, groupNo, groupPos), CodesFrom(t, syms, k + 1) + rest;
    var len := t.lens[t.selectors[g]];
    assert d == Symbol(h, inUse, t, st, g, p, MinLen(len), 0, true);
    assert CodesFrom(t, syms, k) + rest == CodeBits(len, syms[k]) + more;
    hide GoodHeader, GoodMap, AtSymbol, Run, NextSymbol, OnSymbol, CodesFrom, CodeBits, MinLen, MaxLen, Kraft, Used,
        Pow2, GoodTables, Lengths;
    ReadFirst(d, syms[k], more);
  }

  lemma ReadFirst(d: Dec, s: nat, rest: seq<bool>)
    requires d.Symbol? && Ok(d) && s < |CodeTable(d)| && Kraft(CodeTable(d)) <= Pow2(20) && d.zn == MinLen(CodeTable(d))
             && d.first
    ensures Run(d, CodeBits(CodeTable(d), s) + rest)
            == Run(OnSymbol(d.h, d.inUse, d.t, d.st, d.groupNo, d.groupPos, s), rest)
  {
    hide Run, Val, MinLen, MaxLen, Kraft, OnSymbol, CheckCode, GoodTables, GoodHeader, GoodMap, AtSymbol, Pow2;
    LengthsIn(CodeTable(d));
    LengthBounds(CodeTable(d));
    var w := CodeBits(CodeTable(d), s);
    Eat(d, w[..d.zn], w[d.zn..] + rest);
    assert w[..d.zn] + (w[d.zn..] + rest) == w + rest;
    ReadCode(d, s, rest);
  }

  /** All the symbols from the `k`-th on: what the move-to-front stage makes of them is what the decoder ends with. */
  lemma {:induction false} ReadSymbols(h: Header, inUse: seq<bool>, t: Tables, st: MtfState, groupNo: int,
      groupPos: int, syms: seq<int>, k: nat, column: seq<byte>, rest: seq<bool>)
    requires Symbolic(h, inUse, t, syms) && AtSymbol(st, 256, 100000 * h.bs) && k < |syms|
    requires -1 <= groupNo < |t.selectors| && 0 <= groupPos < 50 && k == 50 * (groupNo + 1) - groupPos
    requires var u := Used(inUse, 256);
             && (forall i :: 0 <= i < |syms| - 1 ==> syms[i] != |u| + 1)
             && Feed(st, syms[k..], |u| + 1, u, 100000 * h.bs) == Done(column)
    ensures |column| <= 100000 * h.bs
    ensures Run(NextSymbol(h, inUse, t, st, groupNo, groupPos), CodesFrom(t, syms, k) + rest)
            == Run(Finish(h, column), rest)
    decreases |syms| - k
  {
    var g, p := ReadSymbol(h, inUse, t, st, groupNo, groupPos, syms, k, rest);
    var u := Used(inUse, 256);
    MtfKeeps(st, syms[k], |u| + 1, u, 100000 * h.bs);
    OnSymbolIs(h, inUse, t, st, g, p, syms[k]);
    FeedOne(st, syms[k..], |u| + 1, u, 100000 * h.bs);
    var r := MtfSymbol(st, syms[k], |u| + 1, u, 100000 * h.bs);
    assert syms[k..][1..] == syms[k + 1..];
    hide *;
    if k + 1 < |syms| {
      DoneOnEnd(st, syms[k], |u| + 1, u, 100000 * h.bs);
      ReadSymbols(h, inUse, t, r.st, g, p, syms, k + 1, column, rest);
    } else {
      assert syms[k + 1..] == [];
      FeedNothing(r, |u| + 1, u, 100000 * h.bs);
      NoCodes(t, syms);
      assert [] + rest == rest;
    }
  }

  lemma FeedNothing(r: MtfResult, eob: int, seqToUnseq: seq<byte>, limit: int)
    ensures r.Go? ==> Feed(r.st, [], eob, seqToUnseq, limit) == r
  {
  }

  lemma FeedOne(st: MtfState, syms: seq<int>, eob: int, seqToUnseq: seq<byte>, limit: int)
    requires syms != []
    ensures var r := MtfSymbol(st, syms[0], eob, seqToUnseq, limit);
            Feed(st, syms, eob, seqToUnseq, limit) == if r.Go? then Feed(r.st, syms[1..], eob, seqToUnseq, limit) else r
  {
  }

  lemma DoneOnEnd(st: MtfState, sym: int, eob: int, seqToUnseq: seq<byte>, limit: int)
    requires sym != eob
    ensures !MtfSymbol(st, sym, eob, seqToUnseq, limit).Done?
  {
  }

  lemma OnSymbolIs(h: Header, inUse: seq<bool>, t: Tables, st: MtfState, groupNo: int, groupPos: int, sym: int)
    requires GoodHeader(h) && GoodMap(inUse) && GoodTables(t, AlphaSize(inUse)) && AtSymbol(st, 256, 100000 * h.bs)
    requires 0 <= groupNo < |t.selectors| && 0 <= groupPos < BZ_G_SIZE
    ensures var u := Used(inUse, 256);
            var r := MtfSymbol(st, sym, |u| + 1, u, 100000 * h.bs);
            && (r.Go? ==> AtSymbol(r.st, 256, 100000 * h.bs)
                          && OnSymbol(h, inUse, t, st, groupNo, groupPos, sym)
                              == NextSymbol(h, inUse, t, r.st, groupNo, groupPos))
            && (r.Done? ==>
                |r.column| <= 100000 * h.bs && OnSymbol(h, inUse, t, st, groupNo, groupPos, sym) == Finish(h, r.column))
  {
    var u := Used(inUse, 256);
    MtfKeeps(st, sym, |u| + 1, u, 100000 * h.bs);
  }

  // ------------------------------------------------------------ a whole block

  lemma ReadMap(h: Header, u: seq<bool>, rest: seq<bool>)
    requires GoodHeader(h) && GoodMap(u)
    ensures Run(Mapping1(h, []), Summary(u) + MappingTail(u, 0) + rest) == Run(Selector1(h, u), rest)
  {
    hide Run, MappingTail, Summary, GoodHeader;
    ReadSummary(h, [], Summary(u), MappingTail(u, 0) + rest);
    assert Summary(u) + MappingTail(u, 0) + rest == Summary(u) + (MappingTail(u, 0) + rest);
    assert [] + Summary(u) == Summary(u) && u[..16 * 0] == [];
    ReadMapping(h, u, 0, rest);
  }

  lemma ReadCounts(h: Header, inUse: seq<bool>, n: int, ns: int, rest: seq<bool>)
    requires GoodHeader(h) && GoodMap(inUse) && 2 <= n <= 6 && 1 <= ns <= BZ_MAX_SELECTORS
    ensures Ok(Selector1(h, inUse)) && Ok(Selector3(h, inUse, n, ns, [], 0))
    ensures Run(Selector1(h, inUse), ToBits(n, 3) + (ToBits(ns, 15) + rest))
            == Run(Selector3(h, inUse, n, ns, [], 0), rest)
  {
    Pow2Values();
    hide Run, ToBits, GoodHeader, GoodMap, Pow2;
    Word(Selector1(h, inUse), n, ToBits(ns, 15) + rest);
    Word(Selector2(h, inUse, n), ns, rest);
  }

  lemma SelectorSectionIs(b: Block, limit: int, rest: seq<bool>)
    requires ValidBlock(b, limit)
    ensures |b.tables.lens| <= 6 && Within(b.tables.selectors, FirstBytes(|b.tables.lens|))
    ensures SelectorsBits(b, limit) + rest == ToBits(|b.tables.lens|, 3) + (ToBits(|b.tables.selectors|, 15)
              + (SelectorBits(SelectorMtf(FirstBytes(|b.tables.lens|), b.tables.selectors)) + rest))
  {
    AllTables(b.tables.selectors, |b.tables.lens|);
    hide ToBits, SelectorBits, SelectorMtf, FirstBytes, Codable, Decodable, GoodLengths, Used;
  }

  lemma NoTableYet(b: Block, limit: int)
    requires ValidBlock(b, limit) && GoodMap(b.inUse)
    ensures Tabling(b.inUse, |b.tables.lens|, b.tables.selectors, [])
  {
  }

  lemma ReadSelectorSection(h: Header, b: Block, limit: int, rest: seq<bool>)
    requires GoodHeader(h) && GoodMap(b.inUse) && ValidBlock(b, limit)
    ensures Ok(Selector1(h, b.inUse)) && Tabling(b.inUse, |b.tables.lens|, b.tables.selectors, [])
    ensures Ok(Coding1(h, b.inUse, |b.tables.lens|, b.tables.selectors, []))
    ensures Run(Selector1(h, b.inUse), SelectorsBits(b, limit) + rest) ==
            Run(Coding1(h, b.inUse, |b.tables.lens|, b.tables.selectors, []), rest)
  {
    var (n, ns) := (|b.tables.lens|, |b.tables.selectors|);
    assert 2 <= n <= 6 && 1 <= ns <= BZ_MAX_SELECTORS;
    hide *;
    NoTableYet(b, limit);
    SelectorSectionIs(b, limit, rest);
    SelectorsUndone(FirstBytes(n), b.tables.selectors);
    var m := SelectorMtf(FirstBytes(n), b.tables.selectors);
    ReadCounts(h, b.inUse, n, ns, SelectorBits(m) + rest);
    ReadSelectors(Selector3(h, b.inUse, n, ns, [], 0), m, rest);
    assert [] + m == m;
  }

  lemma ReadCrcWord(bs: int, crc: int, rest: seq<bool>)
    requires 1 <= bs <= 9 && 0 <= crc < 0x1_0000_0000
    ensures Ok(BCrc(bs, 0, 0)) && Ok(RandBit(bs, crc))
    ensures Run(BCrc(bs, 0, 0), ToBits(crc, 32) + rest) == Run(RandBit(bs, crc), rest)
  {
    Pow2Values();
    ValOfBits(crc, 32);
    assert Val([]) == 0 && [] + ToBits(crc, 32) == ToBits(crc, 32);
    hide *;
    ReadCrc(bs, 0, [], ToBits(crc, 32), rest);
  }

  lemma ReadCombCrcWord(crc: int, rest: seq<bool>)
    requires 0 <= crc < 0x1_0000_0000
    ensures Ok(CombCrc(0, 0)) && Ok(Ended(crc))
    ensures Run(CombCrc(0, 0), ToBits(crc, 32) + rest) == Run(Ended(crc), rest)
  {
    Pow2Values();
    ValOfBits(crc, 32);
    assert Val([]) == 0 && [] + ToBits(crc, 32) == ToBits(crc, 32);
    hide *;
    ReadCombCrc(0, [], ToBits(crc, 32), rest);
  }

  /** The bit that says "not randomised", and the row of the original block. */
  lemma ReadRow(bs: int, crc: int, origPtr: int, rest: seq<bool>)
    requires 1 <= bs <= 9 && 0 <= crc < 0x1_0000_0000 && 0 <= origPtr < 100000 * bs
    ensures GoodHeader(Header(bs, crc, origPtr)) && Ok(RandBit(bs, crc)) && Ok(Mapping1(Header(bs, crc, origPtr), []))
    ensures Run(RandBit(bs, crc), [false] + (ToBits(origPtr, 24) + rest))
            == Run(Mapping1(Header(bs, crc, origPtr), []), rest)
  {
    Pow2Values();
    ValOfBits(origPtr, 24);
    assert Val([]) == 0 && [] + ToBits(origPtr, 24) == ToBits(origPtr, 24);
    hide Run, Val, ToBits, Pow2;
    Bit(RandBit(bs, crc), false, ToBits(origPtr, 24) + rest);
    ReadOrigPtr(bs, crc, 0, [], ToBits(origPtr, 24), rest);
  }

  /** The header in front of a block. */
  lemma ReadHeader(bs: int, crc: int, origPtr: int, rest: seq<bool>)
    requires 1 <= bs <= 9 && 0 <= crc < 0x1_0000_0000 && 0 <= origPtr < 100000 * bs
    ensures GoodHeader(Header(bs, crc, origPtr)) && Ok(Mapping1(Header(bs, crc, origPtr), [])) && Ok(BlkHdr(bs, 0))
    ensures Run(BlkHdr(bs, 0), BytesBits(BLOCK_MAGIC) + (ToBits(crc, 32) + ([false] + (ToBits(origPtr, 24) + rest)))) ==
            Run(Mapping1(Header(bs, crc, origPtr), []), rest)
  {
    assert BLOCK_MAGIC[0..] == BLOCK_MAGIC && Ok(BlkHdr(bs, 0));
    hide *;
    var p := [false] + (ToBits(origPtr, 24) + rest);
    ReadBlkHdr(bs, 0, ToBits(crc, 32) + p);
    ReadCrcWord(bs, crc, p);
    ReadRow(bs, crc, origPtr, rest);
  }

  /** What a valid block brings to the reading of its symbols. */
  lemma BlockFacts(bs: int, b: Block)
    requires 1 <= bs <= 9 && ValidBlock(b, 100000 * bs) && GoodHeader(Header(bs, b.crc, b.origPtr))
    ensures |b.inUse| == 256 && GoodMap(b.inUse) && (forall i :: 0 <= i < |b.column| ==> b.inUse[b.column[i]])
    ensures var syms := BlockSymbols(b.inUse, b.column);
            && Symbolic(Header(bs, b.crc, b.origPtr), b.inUse, b.tables, syms) && syms != []
            && forall i :: 0 <= i < |syms| - 1 ==> syms[i] != |Used(b.inUse, 256)| + 1
    ensures var syms := BlockSymbols(b.inUse, b.column);
            var u := Used(b.inUse, 256);
            Feed(MtfState(Identity(), [], false, 0, 0), syms[0..], |u| + 1, u, 100000 * bs) == Done(b.column)
  {
    hide Used, Feed, BlockSymbols, GoodHeader, GoodTables, Codable, Decodable;
    UsedAtRank(b.inUse, b.column[0], 256);
    BlockSymbolsDecode(b.inUse, b.column, 100000 * bs);
    BlockSymbolsEnd(b.inUse, b.column);
    var syms := BlockSymbols(b.inUse, b.column);
    assert syms[0..] == syms;
  }

  lemma BlockRanges(bs: int, b: Block)
    requires 1 <= bs <= 9 && ValidBlock(b, 100000 * bs)
    ensures 0 <= b.crc < 0x1_0000_0000 && 0 <= b.origPtr < |b.column| <= 100000 * bs && |b.inUse| == 256
    ensures 2 <= |b.tables.lens| <= 6 && 1 <= |b.tables.selectors| <= BZ_MAX_SELECTORS
    ensures forall i :: 0 <= i < |b.tables.selectors| ==> b.tables.selectors[i] as int < |b.tables.lens|
    ensures Ok(Output(Header(bs, b.crc, b.origPtr), b.column))
  {
  }

  /**
   * The entropy stage round trip. From the label before a block, the bits of the block bring the decoder to the point
   * where the block can be output, holding exactly the last column, the CRC and the row that were written, and leave
   * every bit that follows unread.
   */
  lemma BlockRoundTrip(bs: int, b: Block, rest: seq<bool>)
    requires 1 <= bs <= 9 && ValidBlock(b, 100000 * bs)
    ensures Ok(BlkHdr(bs, 0)) && Ok(Output(Header(bs, b.crc, b.origPtr), b.column))
    ensures Run(BlkHdr(bs, 0), BlockBits(b, 100000 * bs) + rest)
            == Run(Output(Header(bs, b.crc, b.origPtr), b.column), rest)
  {
    hide *;
    var h, limit := Header(bs, b.crc, b.origPtr), 100000 * bs;
    BlockRanges(bs, b);
    var s4 := SymbolsBits(b, limit) + rest;
    var s3 := LengthsBits(b, limit) + s4;
    var s2 := SelectorsBits(b, limit) + s3;
    BlockBitsAre(b, limit, rest);
    ReadHeader(bs, b.crc, b.origPtr, MappingBits(b) + s2);
    BlockFacts(bs, b);
    MappingBitsAre(b);
    ReadMap(h, b.inUse, s2);
    ReadSelectorSection(h, b, limit, s3);
    TablesIn(b, limit);
    assert [] + b.tables.lens == b.tables.lens;
    ReadTables(h, b.inUse, |b.tables.lens|, b.tables.selectors, [], b.tables.lens, s4);
    StartIs(h, b.inUse, b.tables, limit);
    ReadSymbols(h, b.inUse, b.tables, MtfState(Identity(), [], false, 0, 0), -1, 0, BlockSymbols(b.inUse, b.column), 0,
        b.column, rest);
    FinishIs(h, b.column);
  }

  lemma MappingBitsAre(b: Block)
    requires |b.inUse| == 256
    ensures MappingBits(b) == Summary(b.inUse) + MappingTail(b.inUse, 0)
  {
  }

  lemma TablesIn(b: Block, limit: int)
    requires ValidBlock(b, limit)
    ensures GoodLengths(b.tables.lens, AlphaSize(b.inUse))
    ensures LengthsBits(b, limit) == TablesBits(b.tables.lens)
    ensures SymbolsBits(b, limit) == CodesFrom(b.tables, BlockSymbols(b.inUse, b.column), 0)
  {
  }

  lemma StartIs(h: Header, inUse: seq<bool>, t: Tables, limit: int)
    requires GoodHeader(h) && GoodMap(inUse) && GoodTables(t, AlphaSize(inUse)) && limit == 100000 * h.bs
    ensures AtSymbol(MtfState(Identity(), [], false, 0, 0), 256, limit)
    ensures StartSymbols(h, inUse, t) == NextSymbol(h, inUse, t, MtfState(Identity(), [], false, 0, 0), -1, 0)
  {
  }

  lemma FinishIs(h: Header, column: seq<byte>)
    requires GoodHeader(h) && h.origPtr < |column| <= 100000 * h.bs
    ensures Finish(h, column) == Output(h, column)
  {
  }

  lemma BlockBitsAre(b: Block, limit: int, rest: seq<bool>)
    requires ValidBlock(b, limit)
    ensures BlockBits(b, limit) + rest ==
            BytesBits(BLOCK_MAGIC) + (ToBits(b.crc, 32) + ([false] + (ToBits(b.origPtr, 24)
              + (MappingBits(b) + (SelectorsBits(b, limit)
                  + (LengthsBits(b, limit) + (SymbolsBits(b, limit) + rest)))))))
  {
    hide BytesBits, ToBits, MappingBits, SelectorsBits, LengthsBits, SymbolsBits;
    var x7 := SymbolsBits(b, limit);
    var x6 := LengthsBits(b, limit) + x7;
    assert x6 + rest == LengthsBits(b, limit) + (x7 + rest);
    var x5 := SelectorsBits(b, limit) + x6;
    assert x5 + rest == SelectorsBits(b, limit) + (x6 + rest);
    var x4 := MappingBits(b) + x5;
    assert x4 + rest == MappingBits(b) + (x5 + rest);
    var x3 := ToBits(b.origPtr, 24) + x4;
    assert x3 + rest == ToBits(b.origPtr, 24) + (x4 + rest);
    var x2 := [false] + x3;
    assert x2 + rest == [false] + (x3 + rest);
    var x1 := ToBits(b.crc, 32) + x2;
    assert x1 + rest == ToBits(b.crc, 32) + (x2 + rest);
    assert BytesBits(BLOCK_MAGIC) + x1 + rest == BytesBits(BLOCK_MAGIC) + (x1 + rest);
  }
}
