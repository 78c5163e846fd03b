/**
 * The stream as other programs see it: its markers byte by byte, and what the decoder makes of bytes that are none of
 * them.
 */
module StreamFormat {
  import opened Base
  import opened Bits
  import opened BlockFormat
  import opened GenerateMtf
  import opened MoveToFront
  import opened RunLength
  import opened Decoder
  import opened ReadBlock
  import opened Streams
  import opened Compress
  import opened Crc

  /** The marker before a block: the first digits of pi. */
  ghost function Pi(): (p: seq<byte>)
    ensures |p| == 6
  {
    [0x31, 0x41, 0x59, 0x26, 0x53, 0x59]
  }

  /** The marker at the end: the first digits of the square root of pi. */
  ghost function SqrtPi(): (p: seq<byte>)
    ensures |p| == 6
  {
    [0x17, 0x72, 0x45, 0x38, 0x50, 0x90]
  }

  // ------------------------------------------------------------ what is written

  lemma {:induction false} BytesUnpacked(s: seq<byte>)
    ensures BytesBits(s) == Unpack(s)
    decreases |s|
  {
    if s != [] {
      BytesUnpacked(s[1..]);
      UnpackAppend([s[0]], s[1..]);
      UnpackOne([], s[0]);
      assert [s[0]] + s[1..] == s && [] + [s[0]] == [s[0]] && Unpack([]) + ToBits(s[0], 8) == ToBits(s[0], 8);
      hide Unpack, ToBits;
    }
  }

  /** A stream: "BZh" and a digit, the blocks, the digits of the square root of pi, the combined CRC. */
  lemma StreamMarkers(cs: seq<Closed>, table: seq<word>, bs: int)
    requires |table| == 256 && 1 <= bs <= 9 && AllClosed(cs, table, bs)
    ensures forall i :: 0 <= i < |cs| ==> 0 <= cs[i].b.crc < 0x1_0000_0000
    ensures StreamBits(cs, table, bs) ==
            Unpack([0x42, 0x5a, 0x68, 0x30 + bs])
            + (ClosedBits(cs, table, bs) + (Unpack(SqrtPi()) + ToBits(Combined(cs, 0), 32)))
  {
    CrcsAreWords(cs, table, bs);
    BytesUnpacked(StreamMagic(bs));
    BytesUnpacked(END_MAGIC);
    assert StreamMagic(bs) == [0x42, 0x5a, 0x68, 0x30 + bs];
    assert END_MAGIC == SqrtPi();
    hide Unpack, BytesBits, ToBits, ClosedBits, Combined;
  }

  /** A block: the digits of pi, its CRC, the bit that says "not randomised", the row, and its body. */
  lemma BlockMarker(b: Block, limit: int)
    requires ValidBlock(b, limit)
    ensures BlockBits(b, limit) ==
            Unpack(Pi())
            + (ToBits(b.crc, 32) + ([false] + (ToBits(b.origPtr, 24)
               + (MappingBits(b) + (SelectorsBits(b, limit) + (LengthsBits(b, limit) + SymbolsBits(b, limit)))))))
  {
    BytesUnpacked(BLOCK_MAGIC);
    assert BLOCK_MAGIC == Pi();
    hide Unpack, BytesBits, ToBits, MappingBits, SelectorsBits, LengthsBits, SymbolsBits, ValidBlock;
  }

  // ------------------------------------------------------------ what is refused

  /** A byte arrives. */
  lemma ByteRead(d: Dec, v: byte, rest: seq<bool>)
    requires Ok(d) && !Stopped(d) && Need(d) == 8
    ensures v < Pow2(8) && Run(d, ToBits(v, 8) + rest) == Run(Take(d, v), rest)
  {
    Pow2Values();
    hide Run, ToBits, Take;
    Word(d, v, rest);
  }

  /** A byte that leads to an error. */
  lemma ByteRefused(d: Dec, v: byte, rest: seq<bool>, code: Code)
    requires Ok(d) && !Stopped(d) && Need(d) == 8 && v < Pow2(8) && Take(d, v) == Failed(code) && Ok(Failed(code))
    ensures Run(d, ToBits(v, 8) + rest) == (Failed(code), rest)
  {
    ByteRead(d, v, rest);
    hide Take, ToBits, Need;
    RunStopped(Failed(code), rest);
  }

  lemma StoppedThere(d: Dec, rest: seq<bool>)
    requires Ok(d) && Stopped(d)
    ensures Run(d, rest).0 == d
  {
  }

  lemma ByteFits(v: byte)
    ensures v < Pow2(8)
  {
    Pow2Values();
  }

  lemma Errors()
    ensures Ok(Failed(BZ_DATA_ERROR)) && Ok(Failed(BZ_DATA_ERROR_MAGIC)) && Ok(CombCrc(0, 0))
  {
    assert Pow2(0) == 1;
  }

  /** One byte of the stream's header: "BZh", then a digit from 1 to 9. */
  lemma MagicByte(k: nat, v: byte, rest: seq<bool>)
    requires k < 4
    ensures Ok(Magic(k)) && Ok(Failed(BZ_DATA_ERROR_MAGIC))
    ensures Run(Magic(k), ToBits(v, 8) + rest) ==
            if k < 3 && v == [0x42, 0x5a, 0x68][k] then Run(Magic(k + 1), rest)
            else if k == 3 && 0x31 <= v <= 0x39 then Run(BlkHdr(v - 0x30, 0), rest)
            else (Failed(BZ_DATA_ERROR_MAGIC), rest)
  {
    hide *;
    Errors();
    ByteFits(v);
    MagicTaken(k, v);
    ByteRead(Magic(k), v, rest);
    if Take(Magic(k), v) == Failed(BZ_DATA_ERROR_MAGIC) { ByteRefused(Magic(k), v, rest, BZ_DATA_ERROR_MAGIC); }
  }

  lemma MagicTaken(k: nat, v: byte)
    requires k < 4 && v < Pow2(8)
    ensures Ok(Magic(k)) && !Stopped(Magic(k)) && Need(Magic(k)) == 8
    ensures Take(Magic(k), v) ==
            if k < 3 && v == [0x42, 0x5a, 0x68][k] then Magic(k + 1)
            else if k == 3 && 0x31 <= v <= 0x39 then BlkHdr(v - 0x30, 0)
            else Failed(BZ_DATA_ERROR_MAGIC)
  {
  }

  /**
   * The header of a stream: any four bytes but "BZh" and a digit from 1 to 9 are refused as soon as one of them is
   * wrong.
   */
  lemma MagicRead(a: byte, b: byte, c: byte, d: byte, rest: seq<bool>)
    ensures Ok(Magic(0))
    ensures var r := Run(Magic(0), ToBits(a, 8) + (ToBits(b, 8) + (ToBits(c, 8) + (ToBits(d, 8) + rest))));
            if a == 0x42 && b == 0x5a && c == 0x68 && 0x31 <= d <= 0x39 then r == Run(BlkHdr(d - 0x30, 0), rest)
            else r.0 == Failed(BZ_DATA_ERROR_MAGIC)
  {
    hide Run, ToBits;
    MagicByte(0, a, ToBits(b, 8) + (ToBits(c, 8) + (ToBits(d, 8) + rest)));
    MagicByte(1, b, ToBits(c, 8) + (ToBits(d, 8) + rest));
    MagicByte(2, c, ToBits(d, 8) + rest);
    MagicByte(3, d, rest);
  }

  /** One byte of the marker before a block, which shares its first label with the one at the end. */
  lemma MarkerByte(bs: int, k: nat, v: byte, rest: seq<bool>)
    requires 1 <= bs <= 9 && k < 6
    ensures Ok(BlkHdr(bs, k)) && Ok(BCrc(bs, 0, 0)) && Ok(EndHdr(1)) && (k < 5 ==> Ok(BlkHdr(bs, k + 1)))
    ensures Run(BlkHdr(bs, k), ToBits(v, 8) + rest) ==
            if v == Pi()[k] then Run(if k < 5 then BlkHdr(bs, k + 1) else BCrc(bs, 0, 0), rest)
            else if k == 0 && v == SqrtPi()[0] then Run(EndHdr(1), rest)
            else (Failed(BZ_DATA_ERROR), rest)
  {
    hide *;
    Errors();
    ByteFits(v);
    MarkerTaken(bs, k, v);
    ByteRead(BlkHdr(bs, k), v, rest);
    if Take(BlkHdr(bs, k), v) == Failed(BZ_DATA_ERROR) { ByteRefused(BlkHdr(bs, k), v, rest, BZ_DATA_ERROR); }
  }

  lemma MarkerTaken(bs: int, k: nat, v: byte)
    requires 1 <= bs <= 9 && k < 6 && v < Pow2(8)
    ensures Ok(BlkHdr(bs, k)) && !Stopped(BlkHdr(bs, k)) && Need(BlkHdr(bs, k)) == 8
    ensures Ok(BCrc(bs, 0, 0)) && Ok(EndHdr(1)) && (k < 5 ==> Ok(BlkHdr(bs, k + 1)))
    ensures Take(BlkHdr(bs, k), v) ==
            if v == Pi()[k] then (if k < 5 then BlkHdr(bs, k + 1) else BCrc(bs, 0, 0))
            else if k == 0 && v == SqrtPi()[0] then EndHdr(1)
            else Failed(BZ_DATA_ERROR)
  {
    assert Pow2(0) == 1;
  }

  /** One more byte of the marker at the end. */
  lemma EndByte(k: nat, v: byte, rest: seq<bool>)
    requires 1 <= k < 6
    ensures Ok(EndHdr(k)) && Ok(CombCrc(0, 0)) && (k < 5 ==> Ok(EndHdr(k + 1)))
    ensures Run(EndHdr(k), ToBits(v, 8) + rest) ==
            if v == SqrtPi()[k] then Run(if k < 5 then EndHdr(k + 1) else CombCrc(0, 0), rest)
            else (Failed(BZ_DATA_ERROR), rest)
  {
    hide *;
    Errors();
    ByteFits(v);
    EndTaken(k, v);
    ByteRead(EndHdr(k), v, rest);
    if Take(EndHdr(k), v) == Failed(BZ_DATA_ERROR) { ByteRefused(EndHdr(k), v, rest, BZ_DATA_ERROR); }
  }

  lemma EndTaken(k: nat, v: byte)
    requires 1 <= k < 6 && v < Pow2(8)
    ensures Ok(EndHdr(k)) && !Stopped(EndHdr(k)) && Need(EndHdr(k)) == 8
    ensures Ok(CombCrc(0, 0)) && (k < 5 ==> Ok(EndHdr(k + 1)))
    ensures Take(EndHdr(k), v) ==
            if v == SqrtPi()[k] then (if k < 5 then EndHdr(k + 1) else CombCrc(0, 0)) else Failed(BZ_DATA_ERROR)
  {
    assert Pow2(0) == 1;
  }

  /** The bits of some bytes, one byte after another. */
  lemma BytesFirst(s: seq<byte>, rest: seq<bool>)
    requires s != []
    ensures BytesBits(s) + rest == ToBits(s[0], 8) + (BytesBits(s[1..]) + rest)
    ensures |s| == 1 ==> BytesBits(s[1..]) + rest == rest
  {
    hide *;
    BytesAt(s, 0, rest);
    assert s[0..] == s;
  }

  lemma FirstByteEqual(s: seq<byte>, t: seq<byte>)
    requires s != [] && |s| == |t|
    ensures s == t <==> s[0] == t[0] && s[1..] == t[1..]
  {
    assert s == [s[0]] + s[1..] && t == [t[0]] + t[1..];
  }

  lemma TailOf(s: seq<byte>, k: nat)
    requires k < |s|
    ensures s[k..][0] == s[k] && s[k..][1..] == s[k + 1..] && (k == 0 ==> s[k..] == s)
  {
  }

  /** Six bytes where a block may begin: the marker of a block, that of the end, or an error. */
  lemma {:induction false} MarkerRead(bs: int, k: nat, s: seq<byte>, rest: seq<bool>)
    requires 1 <= bs <= 9 && k < 6 && |s| == 6 - k
    ensures Ok(BlkHdr(bs, k)) && Ok(BCrc(bs, 0, 0)) && Ok(CombCrc(0, 0))
    ensures var r := Run(BlkHdr(bs, k), BytesBits(s) + rest);
            if s == Pi()[k..] then r == Run(BCrc(bs, 0, 0), rest)
            else if k == 0 && s == SqrtPi() then r == Run(CombCrc(0, 0), rest)
            else r.0 == Failed(BZ_DATA_ERROR)
    decreases 6 - k
  {
    hide *;
    var (v, t) := (s[0], s[1..]);
    FirstByteEqual(s, Pi()[k..]);
    TailOf(Pi(), k);
    BytesFirst(s, rest);
    Different();
    Errors();
    MarkerByte(bs, k, v, BytesBits(t) + rest);
    if k < 5 {
      MarkerRead(bs, k + 1, t, rest);
    }
    if k == 0 {
      FirstByteEqual(s, SqrtPi());
      EndRead(1, t, rest);
    }
  }

  lemma Different()
    ensures Pi()[0] != SqrtPi()[0]
  {
  }

  lemma {:induction false} EndRead(k: nat, s: seq<byte>, rest: seq<bool>)
    requires 1 <= k < 6 && |s| == 6 - k
    ensures Ok(EndHdr(k)) && Ok(CombCrc(0, 0))
    ensures var r := Run(EndHdr(k), BytesBits(s) + rest);
            if s == SqrtPi()[k..] then r == Run(CombCrc(0, 0), rest) else r.0 == Failed(BZ_DATA_ERROR)
    decreases 6 - k
  {
    hide *;
    var (v, t) := (s[0], s[1..]);
    FirstByteEqual(s, SqrtPi()[k..]);
    TailOf(SqrtPi(), k);
    BytesFirst(s, rest);
    EndByte(k, v, BytesBits(t) + rest);
    if k < 5 { EndRead(k + 1, t, rest); }
  }

  /** Eight bits, a place in the sorted rows so far `p`. */
  lemma RowByte(bs: int, crc: int, k: nat, p: nat, v: byte, rest: seq<bool>)
    requires 1 <= bs <= 9 && 0 <= crc < 0x1_0000_0000 && k < 3
    ensures Ok(OrigPtr(bs, crc, k, p))
    ensures k == 2 && p * 256 + v <= 10 + 100000 * bs ==> Ok(Mapping1(Header(bs, crc, p * 256 + v), []))
    ensures Run(OrigPtr(bs, crc, k, p), ToBits(v, 8) + rest) ==
            if k < 2 then Run(OrigPtr(bs, crc, k + 1, p * 256 + v), rest)
            else if p * 256 + v > 10 + 100000 * bs then (Failed(BZ_DATA_ERROR), rest)
            else Run(Mapping1(Header(bs, crc, p * 256 + v), []), rest)
  {
    hide *;
    Errors();
    ByteFits(v);
    RowTaken(bs, crc, k, p, v);
    ByteRead(OrigPtr(bs, crc, k, p), v, rest);
    if k == 2 && p * 256 + v > 10 + 100000 * bs { ByteRefused(OrigPtr(bs, crc, k, p), v, rest, BZ_DATA_ERROR); }
  }

  lemma RowTaken(bs: int, crc: int, k: nat, p: nat, v: byte)
    requires 1 <= bs <= 9 && 0 <= crc < 0x1_0000_0000 && k < 3 && v < Pow2(8)
    ensures Ok(OrigPtr(bs, crc, k, p)) && !Stopped(OrigPtr(bs, crc, k, p)) && Need(OrigPtr(bs, crc, k, p)) == 8
    ensures k < 2 ==> Ok(OrigPtr(bs, crc, k + 1, p * 256 + v))
    ensures k == 2 && p * 256 + v <= 10 + 100000 * bs ==> Ok(Mapping1(Header(bs, crc, p * 256 + v), []))
    ensures Take(OrigPtr(bs, crc, k, p), v) ==
            if k < 2 then OrigPtr(bs, crc, k + 1, p * 256 + v)
            else if p * 256 + v > 10 + 100000 * bs then Failed(BZ_DATA_ERROR)
            else Mapping1(Header(bs, crc, p * 256 + v), [])
  {
  }

  /** The row of the original block, in three bytes: one that no block has is refused. */
  lemma RowRead(bs: int, crc: int, x: byte, y: byte, z: byte, rest: seq<bool>)
    requires 1 <= bs <= 9 && 0 <= crc < 0x1_0000_0000
    ensures var row := 65536 * x + 256 * y + z;
            Ok(OrigPtr(bs, crc, 0, 0)) && (row <= 10 + 100000 * bs ==> Ok(Mapping1(Header(bs, crc, row), [])))
    ensures var row := 65536 * x + 256 * y + z;
            Run(OrigPtr(bs, crc, 0, 0), ToBits(x, 8) + (ToBits(y, 8) + (ToBits(z, 8) + rest))) ==
            if row > 10 + 100000 * bs then (Failed(BZ_DATA_ERROR), rest)
            else Run(Mapping1(Header(bs, crc, row), []), rest)
  {
    hide *;
    RowByte(bs, crc, 0, 0, x, ToBits(y, 8) + (ToBits(z, 8) + rest));
    RowByte(bs, crc, 1, x, y, ToBits(z, 8) + rest);
    RowByte(bs, crc, 2, x * 256 + y, z, rest);
  }

  /** No byte in use: an error. */
  lemma NoneInUse(h: Header, in16: seq<bool>, rest: seq<bool>)
    requires GoodHeader(h) && |in16| == 15 && forall i :: 0 <= i < 15 ==> !in16[i]
    ensures Ok(Mapping1(h, in16)) && Run(Mapping1(h, in16), [false] + rest) == (Failed(BZ_DATA_ERROR), rest)
  {
    var all := in16 + [false];
    Bit(Mapping1(h, in16), false, rest);
    NothingUsed(h, all, 0, []);
    hide Used, NextGroup;
    StoppedThere(Failed(BZ_DATA_ERROR), rest);
  }

  lemma {:induction false} NothingUsed(h: Header, all: seq<bool>, i: nat, done: seq<bool>)
    requires GoodHeader(h) && |all| == 16 && (forall k :: 0 <= k < 16 ==> !all[k]) && i <= 16 && |done| == 16 * i
    requires forall k :: 0 <= k < |done| ==> !done[k]
    ensures NextGroup(h, all, i, done) == Failed(BZ_DATA_ERROR)
    decreases 16 - i
  {
    if i == 16 {
      NoUsed(done, 256);
    } else {
      NothingUsed(h, all, i + 1, done + Falses());
    }
  }

  lemma {:induction false} NoUsed(inUse: seq<bool>, k: nat)
    requires k <= |inUse| == 256 && forall i :: 0 <= i < |inUse| ==> !inUse[i]
    ensures Used(inUse, k) == []
  {
    if k > 0 { NoUsed(inUse, k - 1); }
  }

  /** The number of tables: two to six. */
  lemma TablesRead(h: Header, inUse: seq<bool>, v: nat, rest: seq<bool>)
    requires GoodHeader(h) && GoodMap(inUse) && v < 8
    ensures Ok(Selector1(h, inUse)) && (2 <= v <= 6 ==> Ok(Selector2(h, inUse, v)))
    ensures Run(Selector1(h, inUse), ToBits(v, 3) + rest) ==
            if 2 <= v <= 6 then Run(Selector2(h, inUse, v), rest) else (Failed(BZ_DATA_ERROR), rest)
  {
    Pow2Values();
    Word(Selector1(h, inUse), v, rest);
    hide ToBits;
  }

  /** The number of selectors: at least one, and no more than a block can need. */
  lemma SelectorsRead(h: Header, inUse: seq<bool>, nGroups: int, v: nat, rest: seq<bool>)
    requires GoodHeader(h) && GoodMap(inUse) && 2 <= nGroups <= 6 && v < 32768
    ensures Ok(Selector2(h, inUse, nGroups)) && (1 <= v <= 18002 ==> Ok(Selector3(h, inUse, nGroups, v, [], 0)))
    ensures Run(Selector2(h, inUse, nGroups), ToBits(v, 15) + rest) ==
            if v == 0 then (Failed(BZ_DATA_ERROR), rest)
            else if v > 18002 then (Failed(Unspecified), rest)
            else Run(Selector3(h, inUse, nGroups, v, [], 0), rest)
  {
    Pow2Values();
    Word(Selector2(h, inUse, nGroups), v, rest);
    hide ToBits;
  }

  /** The first length of a table: from one to twenty. */
  lemma LengthRead(h: Header, inUse: seq<bool>, nGroups: int, selectors: seq<byte>, lens: seq<seq<byte>>, v: nat,
      rest: seq<bool>)
    requires GoodHeader(h) && Tabling(inUse, nGroups, selectors, lens) && v < 32
    ensures Ok(Coding1(h, inUse, nGroups, selectors, lens)) && (1 <= v <= 20
              ==> Ok(Coding2(h, inUse, nGroups, selectors, lens, [], v)))
    ensures Run(Coding1(h, inUse, nGroups, selectors, lens), ToBits(v, 5) + rest) ==
            if 1 <= v <= 20 then Run(Coding2(h, inUse, nGroups, selectors, lens, [], v), rest)
            else (Failed(BZ_DATA_ERROR), rest)
  {
    Pow2Values();
    assert PartLengths([], AlphaSize(inUse));
    Word(Coding1(h, inUse, nGroups, selectors, lens), v, rest);
    hide ToBits, AlphaSize;
  }

  // ------------------------------------------------------------ the shortest stream

  /** A stream without blocks, byte by byte. */
  lemma NoBlocks(table: seq<word>, bs: int, bytes: seq<byte>)
    requires |table| == 256 && Whole(table, bs, [], bytes)
    ensures 1 <= bs <= 9
    ensures bytes == [0x42, 0x5a, 0x68, 0x30 + bs, 0x17, 0x72, 0x45, 0x38, 0x50, 0x90, 0, 0, 0, 0]
  {
    hide *;
    var pad := WholeIs(table, bs, bytes);
    var head: seq<byte> := [0x42, 0x5a, 0x68, 0x30 + bs];
    var tail: seq<byte> := SqrtPi() + [0, 0, 0, 0];
    StreamMarkers([], table, bs);
    NoneClosed(table, bs);
    UnpackAppend(head, tail);
    UnpackAppend(SqrtPi(), [0, 0, 0, 0]);
    FourZeros();
    var body := Unpack(SqrtPi()) + ToBits(0, 32);
    assert [] + body == body;
    assert |Unpack(bytes)| == 112 + pad && pad == 0;
    NoPad(Unpack(head + tail));
    UnpackApart(bytes, head + tail);
    EndBytes(head, bs);
  }

  lemma WholeIs(table: seq<word>, bs: int, bytes: seq<byte>) returns (pad: nat)
    requires |table| == 256 && Whole(table, bs, [], bytes)
    ensures pad < 8 && 1 <= bs <= 9 && AllClosed([], table, bs)
    ensures Unpack(bytes) == StreamBits([], table, bs) + Zeros(pad) && |Zeros(pad)| == pad
  {
    pad :| pad < 8 && Unpack(bytes) == StreamBits([], table, bs) + Zeros(pad);
    hide StreamBits;
  }

  lemma NoPad(b: seq<bool>)
    ensures b + Zeros(0) == b
  {
  }

  lemma EndBytes(head: seq<byte>, bs: int)
    requires 1 <= bs <= 9 && head == [0x42, 0x5a, 0x68, 0x30 + bs]
    ensures head + (SqrtPi() + [0, 0, 0, 0]) ==
            [0x42, 0x5a, 0x68, 0x30 + bs, 0x17, 0x72, 0x45, 0x38, 0x50, 0x90, 0, 0, 0, 0]
  {
  }

  lemma NoneClosed(table: seq<word>, bs: int)
    requires |table| == 256 && 1 <= bs <= 9
    ensures AllClosed([], table, bs) && ClosedBits([], table, bs) == [] && Combined([], 0) == 0
  {
  }

  lemma FourZeros()
    ensures Unpack([0, 0, 0, 0]) == ToBits(0, 32)
  {
    ZeroBits(32);
    ZeroBits(8);
    UnpackOne([0, 0, 0], 0);
    UnpackOne([0, 0], 0);
    UnpackOne([0], 0);
    UnpackOne([], 0);
    hide ToBits;
    assert [] + [0] == [0] && [0] + [0] == [0, 0] && [0, 0] + [0] == [0, 0, 0] && [0, 0, 0] + [0] == [0, 0, 0, 0];
    assert Unpack([]) == [];
  }

  lemma {:induction false} ZeroBits(n: nat)
    ensures ToBits(0, n) == Zeros(n)
  {
    if n > 0 { ZeroBits(n - 1); }
  }
}
