/**
 * What a stream means: the bytes and the verdict that decompression would deliver on all the bits there are, with
 * unlimited room for output; and the round trip of whole streams.
 */
module Streams {
  import opened Base
  import opened Rotations
  import opened BurrowsWheeler
  import opened Counting
  import opened InverseTransform
  import opened Bits
  import opened MoveToFront
  import opened GenerateMtf
  import opened BlockFormat
  import opened Decoder
  import opened ReadBlock
  import opened RunLength

  /** Between two labels of the decoder, or giving out a block: `left` copies of `ch`, then on from place `next`. */
  datatype Stage =
    | Reading(d: Dec)
    | Writing(h: Header, w: seq<byte>, crc: word, ch: byte, left: nat, next: nat)

  ghost predicate GoodStage(s: Stage) {
    match s
    case Reading(d) => Ok(d)
    case Writing(h, w, _, _, _, next) => 1 <= h.bs <= 9 && 3 <= |w| && next <= |w| - 1
  }

  /** The bytes that the inverse transform yields for a column: the block, and two more that are read but not used. */
  ghost function Spelled(h: Header, column: seq<byte>): (w: seq<byte>)
    requires 0 <= h.origPtr < |column|
    ensures |w| == |column| + 2
  {
    Walk(column, TVector(column), TVector(column)[h.origPtr], |column| + 2)
  }

  ghost function StartWriting(h: Header, column: seq<byte>): (s: Stage)
    requires Ok(Output(h, column))
    ensures GoodStage(s) && s.Writing?
  {
    Writing(h, Spelled(h, column), CRC_START, 0, 0, 0)
  }

  /** What is left of a block. */
  ghost function Remaining(s: Stage): Spelling
    requires s.Writing? && GoodStage(s)
  {
    var e := Expand(s.w, |s.w| - 2, s.next);
    Spelling(Copies(s.ch, s.left) + e.text, e.corrupt)
  }

  /**
   * The bytes still to come and the final return code, BZ_OK when the bits run out first. `cut` counts the last bytes
   * that belong to a block which breaks off inside a run; that is then the error.
   */
  datatype Meaning = Meaning(out: seq<byte>, code: Code, cut: nat)

  ghost predicate AtOutput(s: Stage) {
    s.Reading? && s.d.Output?
  }

  ghost function Rank(s: Stage): nat {
    if AtOutput(s) then 2 else if s.Writing? then 1 else 0
  }

  /** The verdict on a block once its bytes are out. */
  ghost predicate CrcHolds(table: seq<word>, s: Stage)
    requires |table| == 256 && s.Writing? && GoodStage(s)
  {
    Finalise(CrcFrom(table, s.crc, Remaining(s).text)) == s.h.crc
  }

  ghost function Future(table: seq<word>, s: Stage, combined: word, bits: seq<bool>): (m: Meaning)
    requires |table| == 256 && GoodStage(s)
    ensures m.cut <= |m.out|
    decreases |bits|, Rank(s)
  {
    match s
    case Reading(d) =>
      var (d', bits') := Run(d, bits);
      RunConsumes(d, bits);
      (match d'
       case Output(h, column) => Future(table, StartWriting(h, column), combined, bits')
       case Ended(crc) => Meaning([], if crc == combined then BZ_STREAM_END else BZ_DATA_ERROR, 0)
       case Failed(code) => Meaning([], code, 0)
       case _ => Meaning([], BZ_OK, 0))
    case Writing(h, _, _, _, _, _) =>
      var r := Remaining(s);
      if r.corrupt || !CrcHolds(table, s) then Meaning(r.text, BZ_DATA_ERROR, if r.corrupt then |r.text| else 0)
      else
        var rest := Future(table, Reading(BlkHdr(h.bs, 0)), Combine(combined, Finalise(CrcFrom(table, s.crc, r.text))),
            bits);
        Meaning(r.text + rest.out, rest.code, rest.cut)
  }

  lemma {:induction false} RunConsumes(d: Dec, bits: seq<bool>)
    requires Ok(d)
    ensures |Run(d, bits).1| <= |bits|
    ensures !Stopped(d) && Stopped(Run(d, bits).0) ==> |Run(d, bits).1| < |bits|
    decreases |bits|
  {
    if !Stopped(d) && |bits| >= Need(d) {
      NeedsSome(d);
      ValBound(bits[..Need(d)]);
      hide Ok, Take, Need, Val;
      RunConsumes(Take(d, Val(bits[..Need(d)])), bits[Need(d)..]);
    }
  }

  lemma RunStopped(d: Dec, bits: seq<bool>)
    requires Ok(d) && Stopped(d)
    ensures Run(d, bits) == (d, bits)
  {
  }

  /** A stage that some bits bring to another stage means what that stage means. */
  lemma FutureOfRun(table: seq<word>, d: Dec, bits: seq<bool>, d': Dec, bits': seq<bool>, combined: word)
    requires |table| == 256 && Ok(d) && Ok(d') && Run(d, bits) == Run(d', bits')
    ensures Future(table, Reading(d), combined, bits) == Future(table, Reading(d'), combined, bits')
  {
  }

  // ------------------------------------------------------------ blocks that a compressor wrote

  /** A block with the runs it was packed from and the sorted order behind its last column. */
  datatype Closed = Closed(b: Block, pairs: seq<Pair>, ptr: seq<int>)

  ghost predicate ValidClosed(c: Closed, table: seq<word>, bs: int)
    requires |table| == 256
  {
    && ValidBlock(c.b, 100000 * bs) && Runs(c.pairs)
    && SortsRotations(PackRuns(c.pairs), c.ptr) && c.b.column == LastColumn(PackRuns(c.pairs), c.ptr)
    && c.b.origPtr < |c.ptr| && c.ptr[c.b.origPtr] == 0 && c.b.crc == CrcOf(table, Text(c.pairs))
  }

  lemma {:induction false} WalkPrefix(l: seq<byte>, t: seq<int>, p: int, k: nat, m: nat)
    requires IsPerm(t, |l|) && 0 <= p < |l| && k <= m
    ensures Walk(l, t, p, m)[..k] == Walk(l, t, p, k)
    decreases k
  {
    if k > 0 {
      WalkPrefix(l, t, t[p], k - 1, m - 1);
    }
  }

  lemma ClosedParts(c: Closed, table: seq<word>, bs: int)
    requires |table| == 256 && ValidClosed(c, table, bs)
    ensures Runs(c.pairs) && Short(c.pairs) && SortsRotations(PackRuns(c.pairs), c.ptr)
            && IsPerm(c.ptr, |PackRuns(c.pairs)|)
    ensures c.b.column == LastColumn(PackRuns(c.pairs), c.ptr) && 0 <= c.b.origPtr < |c.ptr| && c.ptr[c.b.origPtr] == 0
    ensures c.b.crc == CrcOf(table, Text(c.pairs)) && |c.ptr| == |c.b.column| == |PackRuns(c.pairs)|
  {
    hide PackRuns, LastColumn, Walk;
  }

  lemma BlockComesBack(c: Closed, table: seq<word>, bs: int)
    requires |table| == 256 && 1 <= bs <= 9 && ValidClosed(c, table, bs)
    ensures 0 <= c.b.origPtr < |c.b.column| == |PackRuns(c.pairs)|
    ensures Spelled(Header(bs, c.b.crc, c.b.origPtr), c.b.column)[..|c.b.column|] == PackRuns(c.pairs)
  {
    hide *;
    ClosedParts(c, table, bs);
    var (l, b, o) := (c.b.column, PackRuns(c.pairs), c.b.origPtr);
    ColumnSpellsBlock(b, c.ptr, o);
    WalkPrefix(l, TVector(l), TVector(l)[o], |b|, |b| + 2);
    SpelledIs(Header(bs, c.b.crc, o), l);
  }

  lemma SpelledIs(h: Header, l: seq<byte>)
    requires 0 <= h.origPtr < |l|
    ensures Spelled(h, l) == Walk(l, TVector(l), TVector(l)[h.origPtr], |l| + 2)
  {
  }

  lemma RemainingAtStart(h: Header, l: seq<byte>)
    requires Ok(Output(h, l)) && 0 <= h.origPtr < |l|
    ensures Remaining(StartWriting(h, l)) == Expand(Spelled(h, l), |l|, 0)
  {
    hide *;
    NothingFirst(Expand(Spelled(h, l), |l|, 0).text);
    StartIs(h, l);
    RemainingIs(StartWriting(h, l));
  }

  lemma StartIs(h: Header, l: seq<byte>)
    requires Ok(Output(h, l)) && 0 <= h.origPtr < |l|
    ensures StartWriting(h, l) == Writing(h, Spelled(h, l), CRC_START, 0, 0, 0)
  {
    hide Ok, Spelled, GoodStage;
  }

  lemma RemainingIs(s: Stage)
    requires s.Writing? && GoodStage(s)
    ensures s.next <= |s.w| - 1 && |s.w| >= 3
    ensures var e := Expand(s.w, |s.w| - 2, s.next); Remaining(s) == Spelling(Copies(s.ch, s.left) + e.text, e.corrupt)
  {
    hide Expand;
  }

  lemma NothingFirst(s: seq<byte>)
    ensures Copies(0, 0) + s == s
  {
  }

  /** The decoder's bytes for a closed block: the packed runs, and then the input those stand for. */
  lemma ClosedSpells(c: Closed, table: seq<word>, bs: int)
    requires |table| == 256 && 1 <= bs <= 9 && ValidClosed(c, table, bs)
    requires Ok(Output(Header(bs, c.b.crc, c.b.origPtr), c.b.column))
    ensures Remaining(StartWriting(Header(bs, c.b.crc, c.b.origPtr), c.b.column)) == Spelling(Text(c.pairs), false)
  {
    hide *;
    ClosedParts(c, table, bs);
    BlockComesBack(c, table, bs);
    var w := Spelled(Header(bs, c.b.crc, c.b.origPtr), c.b.column);
    assert w[0..|c.b.column|] == w[..|c.b.column|];
    ExpandPack(w, |c.b.column|, 0, c.pairs);
    RemainingAtStart(Header(bs, c.b.crc, c.b.origPtr), c.b.column);
  }

  ghost function Texts(cs: seq<Closed>): seq<byte> {
    if cs == [] then [] else Text(cs[0].pairs) + Texts(cs[1..])
  }

  ghost predicate AllClosed(cs: seq<Closed>, table: seq<word>, bs: int)
    requires |table| == 256
  {
    forall i :: 0 <= i < |cs| ==> ValidClosed(cs[i], table, bs)
  }

  ghost function ClosedBits(cs: seq<Closed>, table: seq<word>, bs: int): seq<bool>
    requires |table| == 256 && AllClosed(cs, table, bs)
  {
    if cs == [] then [] else BlockBits(cs[0].b, 100000 * bs) + ClosedBits(cs[1..], table, bs)
  }

  /** The combined CRC after some blocks. */
  ghost function Combined(cs: seq<Closed>, start: word): word
    requires forall i :: 0 <= i < |cs| ==> 0 <= cs[i].b.crc < 0x1_0000_0000
  {
    if cs == [] then start else Combined(cs[1..], Combine(start, cs[0].b.crc))
  }

  /** The bits of a whole stream: the header, the blocks, the trailer with the combined CRC. */
  ghost function StreamBits(cs: seq<Closed>, table: seq<word>, bs: int): seq<bool>
    requires |table| == 256 && 1 <= bs <= 9 && AllClosed(cs, table, bs)
  {
    CrcsAreWords(cs, table, bs);
    BytesBits(StreamMagic(bs)) + (ClosedBits(cs, table, bs) + (BytesBits(END_MAGIC) + ToBits(Combined(cs, 0), 32)))
  }

  lemma BlockMeans(c: Closed, table: seq<word>, bs: int, combined: word, rest: seq<bool>)
    requires |table| == 256 && 1 <= bs <= 9 && ValidClosed(c, table, bs)
    ensures var more := Future(table, Reading(BlkHdr(bs, 0)), Combine(combined, c.b.crc), rest);
            Future(table, Reading(BlkHdr(bs, 0)), combined, BlockBits(c.b, 100000 * bs) + rest)
                == Meaning(Text(c.pairs) + more.out, more.code, more.cut)
  {
    var h := Header(bs, c.b.crc, c.b.origPtr);
    BlockRoundTrip(bs, c.b, rest);
    ClosedSpells(c, table, bs);
    var d := Output(h, c.b.column);
    assert c.b.crc == CrcOf(table, Text(c.pairs));
    hide Run, ValidClosed, Ok, BlockBits, StartWriting, Remaining, Combine, CrcFrom, Finalise, Text;
    FutureOfRun(table, BlkHdr(bs, 0), BlockBits(c.b, 100000 * bs) + rest, d, rest, combined);
    WritingMeans(table, d, combined, rest, Text(c.pairs));
  }

  /** A block that spells `text` and whose CRC holds: its bytes, then what follows the block. */
  lemma WritingMeans(table: seq<word>, d: Dec, combined: word, rest: seq<bool>, text: seq<byte>)
    requires |table| == 256 && d.Output? && Ok(d) && Remaining(StartWriting(d.h, d.column)) == Spelling(text, false)
    requires d.h.crc == CrcOf(table, text)
    ensures Ok(BlkHdr(d.h.bs, 0))
    ensures var more := Future(table, Reading(BlkHdr(d.h.bs, 0)), Combine(combined, d.h.crc), rest);
            Future(table, Reading(d), combined, rest) == Meaning(text + more.out, more.code, more.cut)
  {
    RunStopped(d, rest);
    hide Run, Spelled, Remaining, Combine, CrcFrom, Finalise, Expand;
    assert Future(table, Reading(d), combined, rest) == Future(table, StartWriting(d.h, d.column), combined, rest);
  }

  lemma TrailerMeans(table: seq<word>, bs: int, combined: word, rest: seq<bool>)
    requires |table| == 256 && 1 <= bs <= 9
    ensures Future(table, Reading(BlkHdr(bs, 0)), combined, BytesBits(END_MAGIC) + (ToBits(combined, 32) + rest))
            == Meaning([], BZ_STREAM_END, 0)
  {
    var bits := BytesBits(END_MAGIC) + (ToBits(combined, 32) + rest);
    assert END_MAGIC[0..] == END_MAGIC;
    ReadEndHdr(BlkHdr(bs, 0), 0, ToBits(combined, 32) + rest);
    ReadCombCrcWord(combined, rest);
    RunStopped(Ended(combined), rest);
    hide Run, BytesBits, ToBits;
  }

  lemma {:induction false} BlocksMean(cs: seq<Closed>, table: seq<word>, bs: int, combined: word, rest: seq<bool>)
    requires |table| == 256 && 1 <= bs <= 9 && AllClosed(cs, table, bs)
    ensures forall i :: 0 <= i < |cs| ==> 0 <= cs[i].b.crc < 0x1_0000_0000
    ensures var c' := Combined(cs, combined);
            var more := Future(table, Reading(BlkHdr(bs, 0)), c', rest);
            Future(table, Reading(BlkHdr(bs, 0)), combined, ClosedBits(cs, table, bs) + rest)
                == Meaning(Texts(cs) + more.out, more.code, more.cut)
    decreases |cs|
  {
    CrcsAreWords(cs, table, bs);
    if cs == [] {
      hide Future;
      var more := Future(table, Reading(BlkHdr(bs, 0)), combined, rest);
      assert [] + rest == rest && Texts(cs) + more.out == more.out;
    } else {
      FirstClosed(cs, table, bs, combined, rest);
      hide *;
      BlockMeans(cs[0], table, bs, combined, ClosedBits(cs[1..], table, bs) + rest);
      BlocksMean(cs[1..], table, bs, Combine(combined, cs[0].b.crc), rest);
      TextsAssoc(cs, Future(table, Reading(BlkHdr(bs, 0)), Combined(cs, combined), rest).out);
    }
  }

  lemma TextsAssoc(cs: seq<Closed>, out: seq<byte>)
    requires cs != []
    ensures Text(cs[0].pairs) + (Texts(cs[1..]) + out) == Texts(cs) + out
  {
    hide Text;
  }

  lemma FirstClosed(cs: seq<Closed>, table: seq<word>, bs: int, combined: word, rest: seq<bool>)
    requires |table| == 256 && 1 <= bs <= 9 && AllClosed(cs, table, bs) && cs != []
    ensures ValidClosed(cs[0], table, bs) && ValidBlock(cs[0].b, 100000 * bs) && AllClosed(cs[1..], table, bs)
    ensures forall i :: 0 <= i < |cs| ==> 0 <= cs[i].b.crc < 0x1_0000_0000
    ensures Combined(cs, combined) == Combined(cs[1..], Combine(combined, cs[0].b.crc)) && Ok(BlkHdr(bs, 0))
    ensures ClosedBits(cs, table, bs) + rest == BlockBits(cs[0].b, 100000 * bs)
            + (ClosedBits(cs[1..], table, bs) + rest)
  {
    CrcsAreWords(cs, table, bs);
    assert ValidClosed(cs[0], table, bs) && ValidBlock(cs[0].b, 100000 * bs) && Ok(BlkHdr(bs, 0));
    hide ValidClosed, Combine, BlockBits, ValidBlock, Ok;
    assert AllClosed(cs[1..], table, bs);
    Assoc(BlockBits(cs[0].b, 100000 * bs), ClosedBits(cs[1..], table, bs), rest);
  }

  lemma CrcsAreWords(cs: seq<Closed>, table: seq<word>, bs: int)
    requires |table| == 256 && AllClosed(cs, table, bs)
    ensures forall i :: 0 <= i < |cs| ==> 0 <= cs[i].b.crc < 0x1_0000_0000
  {
    forall i | 0 <= i < |cs| ensures 0 <= cs[i].b.crc < 0x1_0000_0000 {
      assert ValidClosed(cs[i], table, bs);
    }
  }

  /**
   * The round trip of whole streams: the bits of a stream, whatever follows them, mean the text of its blocks, in
   * order, and then the end of the stream. Both CRC checks pass on the way.
   */
  lemma StreamMeans(cs: seq<Closed>, table: seq<word>, bs: int, rest: seq<bool>)
    requires |table| == 256 && 1 <= bs <= 9 && AllClosed(cs, table, bs)
    ensures Ok(Magic(0))
    ensures Future(table, Reading(Magic(0)), 0, StreamBits(cs, table, bs) + rest)
            == Meaning(Texts(cs), BZ_STREAM_END, 0)
  {
    hide *;
    StartsOk(bs);
    StreamIs(cs, table, bs, rest);
    var c := Combined(cs, 0);
    var tail := BytesBits(END_MAGIC) + (ToBits(c, 32) + rest);
    ReadMagic(bs, 0, ClosedBits(cs, table, bs) + tail);
    FutureOfRun(table, Magic(0), StreamBits(cs, table, bs) + rest, BlkHdr(bs, 0), ClosedBits(cs, table, bs) + tail, 0);
    BlocksMean(cs, table, bs, 0, tail);
    TrailerMeans(table, bs, c, rest);
    assert Texts(cs) + [] == Texts(cs);
  }

  lemma StartsOk(bs: int)
    requires 1 <= bs <= 9
    ensures StreamMagic(bs)[0..] == StreamMagic(bs) && Ok(Magic(0)) && Ok(BlkHdr(bs, 0))
  {
  }

  lemma StreamIs(cs: seq<Closed>, table: seq<word>, bs: int, rest: seq<bool>)
    requires |table| == 256 && 1 <= bs <= 9 && AllClosed(cs, table, bs)
    ensures forall i :: 0 <= i < |cs| ==> 0 <= cs[i].b.crc < 0x1_0000_0000
    ensures StreamBits(cs, table, bs) + rest ==
            BytesBits(StreamMagic(bs)) + (ClosedBits(cs, table, bs)
                + (BytesBits(END_MAGIC) + (ToBits(Combined(cs, 0), 32) + rest)))
  {
    CrcsAreWords(cs, table, bs);
    hide BytesBits, ToBits, ClosedBits, Combined, ValidClosed;
    var c := ToBits(Combined(cs, 0), 32);
    Assoc(BytesBits(END_MAGIC), c, rest);
    Assoc(ClosedBits(cs, table, bs), BytesBits(END_MAGIC) + c, rest);
    Assoc(BytesBits(StreamMagic(bs)), ClosedBits(cs, table, bs) + (BytesBits(END_MAGIC) + c), rest);
  }
}
