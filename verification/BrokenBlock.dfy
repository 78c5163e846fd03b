/**
 * A real stream with a block that breaks off: four equal bytes and no count. What the fast form reports of it depends
 * on how the work is split over calls.
 */
module BrokenBlock {
  import opened Base
  import opened Rotations
  import opened BurrowsWheeler
  import opened Counting
  import opened Bits
  import opened PrefixCode
  import opened MoveToFront
  import opened GenerateMtf
  import opened BlockFormat
  import opened RunLength
  import opened Decoder
  import opened ReadBlock
  import opened Streams
  import opened Decompress
  import CompressBlock
  import InverseTransform
  import SendMtf

  const SEVENS: seq<byte> := [7, 7, 7, 7]

  /** A block whose last column is four sevens, coded with one table twice. */
  ghost function FourSevens(): Block {
    Block(0, 0, seq(256, i => i == 7), Tables([0], [[2, 2, 2], [2, 2, 2]]), SEVENS)
  }

  lemma {:induction false} OneUsed(n: nat)
    requires n <= 256
    ensures |Used(FourSevens().inUse, n)| == if n > 7 then 1 else 0
  {
    if n > 0 { OneUsed(n - 1); }
  }

  lemma FlatKraft()
    ensures Kraft([2, 2, 2]) <= Pow2(20)
  {
    var l: seq<byte> := [2, 2, 2];
    assert l[..2] == [2, 2] && l[..2][..1] == [2] && l[..2][..1][..0] == [];
    assert Kraft(l) == Kraft(l[..2]) + Pow2(18) && Kraft(l[..2]) == Kraft(l[..2][..1]) + Pow2(18);
    assert Kraft(l[..2][..1]) == Kraft(l[..2][..1][..0]) + Pow2(18);
    Pow2Add(18, 2);
    assert Pow2(2) == 4;
  }

  lemma FourSevensValid()
    ensures ValidBlock(FourSevens(), 100000)
  {
    hide *;
    OneUsed(256);
    FlatKraft();
    SevensShape();
    var u := FourSevens().inUse;
    CompressBlock.SymbolsInAlphabet(u, SEVENS);
    SevensFit(u);
  }

  lemma SevensShape()
    ensures var u := FourSevens().inUse;
            |u| == 256 && u[7] && FourSevens() == Block(0, 0, u, Tables([0], [[2, 2, 2], [2, 2, 2]]), SEVENS)
    ensures SEVENS == [7, 7, 7, 7]
  {
  }

  lemma SevensFit(u: seq<bool>)
    requires |u| == 256 && u[7] && |Used(u, 256)| == 1 && Kraft([2, 2, 2]) <= Pow2(20)
    requires SendMtf.InAlphabet(BlockSymbols(u, SEVENS), 3) && |BlockSymbols(u, SEVENS)| <= 5
    ensures ValidBlock(Block(0, 0, u, Tables([0], [[2, 2, 2], [2, 2, 2]]), SEVENS), 100000)
  {
    hide Kraft, Pow2, Used, BlockSymbols;
    var t := Tables([0], [[2, 2, 2], [2, 2, 2]]);
    assert t.lens[0] == t.lens[1] == [2, 2, 2];
  }

  lemma {:induction false} SevensOnly(t: seq<int>, p: int, k: nat)
    requires IsPerm(t, 4) && 0 <= p < 4
    ensures Walk(SEVENS, t, p, k) == Copies(7, k)
    decreases k
  {
    if k > 0 { SevensOnly(t, t[p], k - 1); }
  }

  /** The walk yields six sevens: four of the block, and two beyond it, of which the first is taken for the count. */
  lemma SevensExpand()
    ensures Expand(Copies(7, 6), 4, 0) == Spelling(Copies(7, 11), true)
  {
    assert Expand(Copies(7, 6), 4, 5) == Spelling([], true);
    assert Copies(7, 11) + [] == Copies(7, 11);
  }

  ghost function SevensMeaning(): Meaning {
    Meaning(Copies(7, 11), BZ_DATA_ERROR, 11)
  }

  lemma SevensRemain(h: Header)
    requires h == Header(1, 0, 0) && Ok(Output(h, SEVENS))
    ensures Remaining(StartWriting(h, SEVENS)) == Spelling(Copies(7, 11), true)
  {
    hide *;
    assert |SEVENS| == 4 by { SevensSize(); }
    RemainingAtStart(h, SEVENS);
    SpelledIs(h, SEVENS);
    InverseTransform.TVectorStable(SEVENS);
    SevensFrom(TVector(SEVENS));
    SevensExpand();
  }

  lemma SevensSize()
    ensures |SEVENS| == 4
  {
  }

  lemma SevensFrom(t: seq<int>)
    requires StableOrder(SEVENS, t)
    ensures IsPerm(t, 4) && Walk(SEVENS, t, t[0], 6) == Copies(7, 6)
  {
    SevensOnly(t, t[0], 6);
  }

  lemma FutureBroken(table: seq<word>, h: Header, column: seq<byte>, text: seq<byte>, combined: word, rest: seq<bool>)
    requires |table| == 256 && Ok(Output(h, column)) && Remaining(StartWriting(h, column)) == Spelling(text, true)
    ensures Future(table, Reading(Output(h, column)), combined, rest) == Meaning(text, BZ_DATA_ERROR, |text|)
  {
    RunStopped(Output(h, column), rest);
    hide Run, StartWriting, Remaining, Ok;
  }

  lemma SevensMean(table: seq<word>, rest: seq<bool>)
    requires |table| == 256 && ValidBlock(FourSevens(), 100000)
    ensures Ok(Magic(0))
    ensures Future(table, Reading(Magic(0)), 0, BytesBits(StreamMagic(1)) + (BlockBits(FourSevens(), 100000) + rest))
            == SevensMeaning()
  {
    hide *;
    var (b, h) := (FourSevens(), Header(1, 0, 0));
    SevensBlock();
    var bits := BlockBits(b, 100000) + rest;
    BlockRoundTrip(1, b, rest);
    StartsOk(1);
    ReadMagic(1, 0, bits);
    SevensRemain(h);
    FutureOfRun(table, Magic(0), BytesBits(StreamMagic(1)) + bits, BlkHdr(1, 0), bits, 0);
    FutureOfRun(table, BlkHdr(1, 0), bits, Output(h, SEVENS), rest, 0);
    FutureBroken(table, h, SEVENS, Copies(7, 11), 0, rest);
  }

  lemma SevensBlock()
    ensures FourSevens().crc == 0 && FourSevens().origPtr == 0 && FourSevens().column == SEVENS
    ensures SevensMeaning() == Meaning(Copies(7, 11), BZ_DATA_ERROR, 11) && |Copies(7, 11)| == 11
  {
  }

  /** Whole bytes of bits are the bits of some bytes. */
  lemma {:induction false} BytesOf(bits: seq<bool>) returns (s: seq<byte>)
    requires |bits| % 8 == 0
    ensures Unpack(s) == bits
    decreases |bits|
  {
    if bits == [] {
      s := [];
    } else {
      var head, tail := bits[..8], bits[8..];
      var t := BytesOf(tail);
      ValBound(head);
      Pow2Values();
      BitsOfVal(head);
      s := [Val(head)] + t;
      UnpackFirst(s);
      assert s[1..] == t;
    }
  }

  lemma BrokenStream(table: seq<word>) returns (input: seq<byte>)
    requires |table| == 256
    ensures WholeMeaning(table, input) == SevensMeaning()
  {
    FourSevensValid();
    hide *;
    var bits := BytesBits(StreamMagic(1)) + (BlockBits(FourSevens(), 100000) + []);
    var pad := Padding(|bits|);
    bits := BytesBits(StreamMagic(1)) + (BlockBits(FourSevens(), 100000) + pad);
    input := BytesOf(bits);
    SevensMean(table, pad);
    WholeMeaningIs(table, input);
  }

  lemma Padding(n: nat) returns (pad: seq<bool>)
    ensures (n + |pad|) % 8 == 0
  {
    pad := Zeros((8 - n % 8) % 8);
  }

  lemma WholeMeaningIs(table: seq<word>, input: seq<byte>)
    requires |table| == 256
    ensures Ok(Magic(0)) && WholeMeaning(table, input) == Future(table, Reading(Magic(0)), 0, Unpack(input))
  {
  }

  method Fresh(table: seq<word>, ghost input: seq<byte>) returns (d: Decompressor)
    requires |table| == 256 && WholeMeaning(table, input) == SevensMeaning()
    ensures fresh(d) && !d.small && d.output == [] && Underway(d, SevensMeaning(), Unpack(input))
  {
    d := new Decompressor(table, false);
    StartMeans(d, Unpack(input));
    hide *;
    WholeMeaningIs(table, input);
  }

  /** One call with all the input that is left. */
  method Call(d: Decompressor, input: seq<byte>, room: nat) returns (ret: Code)
    requires !d.small && Underway(d, SevensMeaning(), Unpack(input)) && room != 11 - |d.output|
    modifies d
    ensures !d.small && |old(d.output)| <= 11
    ensures if room > 11 - |old(d.output)| then ret == BZ_DATA_ERROR && d.output == old(d.output)
            else ret == BZ_OK && d.output == Copies(7, |old(d.output)| + room) && Underway(d, SevensMeaning(), [])
  {
    hide *;
    UnderwayIs(d, SevensMeaning(), Unpack(input));
    SevensBlock();
    assert Unpack(input) + [] == Unpack(input);
    ghost var lost;
    ghost var before := d.output;
    ret, lost := OnePiece(d, input, room, SevensMeaning(), []);
    if ret == BZ_OK {
      StarvedMeans(d, SevensMeaning());
      UnderwayIs(d, SevensMeaning(), []);
      SevensPrefix(d.output);
    } else {
      StopsAfterHas(SevensMeaning(), before, d.output, ret, lost);
    }
  }

  lemma SevensPrefix(out: seq<byte>)
    requires out <= SevensMeaning().out
    ensures |out| <= 11 && out == Copies(7, |out|) && SevensMeaning().code == BZ_DATA_ERROR
  {
  }

  lemma StopsAfterHas(m: Meaning, before: seq<byte>, out: seq<byte>, ret: Code, lost: seq<byte>)
    requires StopsAfter(m, before, out, ret, false, lost) && |m.out| == m.cut
    ensures ret == m.code && out == before && |lost| == |m.out| - |out|
  {
  }

  /**
   * One and the same stream in the fast form. With room for all in one call, nothing is reported; with room for four
   * bytes in a first call, those four are.
   */
  method SplitDecides(table: seq<word>, input: seq<byte>) returns (atOnce: seq<byte>, inTwo: seq<byte>)
    requires |table| == 256 && WholeMeaning(table, input) == SevensMeaning()
    ensures atOnce == [] && inTwo == Copies(7, 4)
  {
    hide *;
    SevensEmpty();
    var d := Fresh(table, input);
    var ret := Call(d, input, 12);
    atOnce := d.output;
    d := Fresh(table, input);
    ret := Call(d, input, 4);
    assert Unpack([]) == [];
    ret := Call(d, [], 12);
    inTwo := d.output;
  }

  lemma SevensEmpty()
    ensures Unpack([]) == [] && |Copies(7, 4)| == 4
  {
  }
}
