/** The compressor: run-length coding of the input, cutting into blocks, and the protocol of `BZ2_bzCompress`. */
module Compress {
  import opened Base
  import opened Bits
  import opened MoveToFront
  import opened BlockFormat
  import opened Decoder
  import opened ReadBlock
  import opened RunLength
  import opened Streams
  import opened CompressBlock

  // ------------------------------------------------------------ what has become of the input

  /** The pending run: 256 stands for "none". */
  ghost predicate RunOk(ch: int, len: nat) {
    (ch == 256 && len == 0) || (0 <= ch < 256 && 1 <= len <= 255)
  }

  ghost function RunText(ch: int, len: nat): seq<byte>
    requires RunOk(ch, len)
  {
    if ch == 256 then [] else Copies(ch, len)
  }

  /**
   * All accepted input is in the closed blocks, in the runs of the current block, or in the pending run, in this
   * order.
   */
  ghost predicate History(table: seq<word>, bs: int, accepted: seq<byte>, closed: seq<Closed>, pairs: seq<Pair>,
      ch: int, len: nat, combined: word)
    requires |table| == 256
  {
    && AllClosed(closed, table, bs) && CrcsOk(closed) && combined == Combined(closed, 0)
    && Runs(pairs) && RunOk(ch, len) && (ch < 256 && pairs != [] ==> Follows(pairs[|pairs| - 1], Pair(ch, len)))
    && accepted == Texts(closed) + Text(pairs) + RunText(ch, len)
  }

  ghost predicate CrcsOk(closed: seq<Closed>) {
    forall i :: 0 <= i < |closed| ==> 0 <= closed[i].b.crc < 0x1_0000_0000
  }

  /** The current block holds its runs, their bytes are marked, their text is in the CRC. */
  ghost predicate Filling(table: seq<word>, block: seq<byte>, pairs: seq<Pair>, inUse: seq<bool>, crc: word)
    requires |table| == 256
  {
    && Runs(pairs) && block == PackRuns(pairs) && Marked(block, inUse) && crc == CrcFrom(table, CRC_START, Text(pairs))
  }

  ghost predicate Marked(block: seq<byte>, inUse: seq<bool>) {
    |inUse| == 256 && forall i :: 0 <= i < |block| ==> inUse[block[i]]
  }

  lemma RunsAppend(pairs: seq<Pair>, p: Pair)
    requires Runs(pairs) && 1 <= p.len <= 255 && (pairs != [] ==> Follows(pairs[|pairs| - 1], p))
    ensures Runs(pairs + [p])
  {
    forall i | 0 < i < |pairs + [p]| ensures Follows((pairs + [p])[i - 1], (pairs + [p])[i]) {
      if i < |pairs| { assert Follows(pairs[i - 1], pairs[i]); }
    }
  }

  lemma MarkedMore(block: seq<byte>, inUse: seq<bool>, p: Pair, inUse': seq<bool>)
    requires Marked(block, inUse) && 1 <= p.len <= 255
    requires |inUse'| == 256 && (forall c :: 0 <= c < 256 && inUse[c] ==> inUse'[c]) && inUse'[p.ch]
             && (p.len >= 4 ==> inUse'[p.len - 4])
    ensures Marked(block + PairBytes(p), inUse') && |PairBytes(p)| <= 5
  {
  }

  lemma FillPair(table: seq<word>, block: seq<byte>, pairs: seq<Pair>, inUse: seq<bool>, crc: word, p: Pair,
      inUse': seq<bool>, crc': word)
    requires |table| == 256 && Filling(table, block, pairs, inUse, crc) && 1 <= p.len <= 255
    requires pairs != [] ==> Follows(pairs[|pairs| - 1], p)
    requires |inUse'| == 256 && (forall c :: 0 <= c < 256 && inUse[c] ==> inUse'[c]) && inUse'[p.ch]
             && (p.len >= 4 ==> inUse'[p.len - 4])
    requires crc' == CrcFrom(table, crc, Copies(p.ch, p.len))
    ensures Filling(table, block + PairBytes(p), pairs + [p], inUse', crc') && |PairBytes(p)| <= 5
  {
    hide CrcFrom, Text, PackRuns, Marked, PairBytes, Copies, Follows;
    RunsAppend(pairs, p);
    PackAppend(pairs, p);
    MarkedMore(block, inUse, p, inUse');
    CrcAppend(table, CRC_START, Text(pairs), Copies(p.ch, p.len));
  }

  /** The pending run joins the block, and a new one may begin. */
  lemma RunJoins(table: seq<word>, bs: int, accepted: seq<byte>, closed: seq<Closed>, pairs: seq<Pair>, ch: int,
      len: nat, combined: word)
    requires |table| == 256 && History(table, bs, accepted, closed, pairs, ch, len, combined) && ch < 256
    ensures History(table, bs, accepted, closed, pairs + [Pair(ch, len)], 256, 0, combined)
    ensures forall c: byte ::
            c != ch || len == 255
            ==> History(table, bs, accepted + [c], closed, pairs + [Pair(ch, len)], c, 1, combined)
  {
    var p := Pair(ch, len);
    PackAppend(pairs, p);
    hide Text, PackRuns, Texts, AllClosed, CrcsOk, Combined;
    RunsAppend(pairs, p);
    Assoc(Texts(closed), Text(pairs), Copies(ch, len));
    assert accepted + [] == accepted;
  }

  /** A first run begins, or the pending run grows. */
  lemma RunGrows(table: seq<word>, bs: int, accepted: seq<byte>, closed: seq<Closed>, pairs: seq<Pair>, ch: int,
      len: nat, combined: word, c: byte)
    requires |table| == 256 && History(table, bs, accepted, closed, pairs, ch, len, combined)
    ensures ch == 256 && pairs == [] ==> History(table, bs, accepted + [c], closed, pairs, c, 1, combined)
    ensures ch == c as int && len < 255 ==> History(table, bs, accepted + [c], closed, pairs, ch, len + 1, combined)
  {
    hide Text, Texts, AllClosed, CrcsOk, Combined;
    Assoc(Texts(closed) + Text(pairs), RunText(ch, len), [c]);
    assert Copies(c, len) + [c] == Copies(c, len + 1);
    assert Copies(c, 1) == [c];
    if ch == c as int && len < 255 && pairs != [] {
      assert Follows(pairs[|pairs| - 1], Pair(ch, len + 1));
    }
  }

  lemma {:induction false} CombinedAppend(cs: seq<Closed>, start: word, c: Closed)
    requires CrcsOk(cs) && 0 <= c.b.crc < 0x1_0000_0000
    ensures CrcsOk(cs + [c]) && Combined(cs + [c], start) == Combine(Combined(cs, start), c.b.crc)
    decreases |cs|
  {
    hide Combine;
    if cs == [] {
      assert [] + [c] == [c] && [c][1..] == [];
    } else {
      assert CrcsOk(cs[1..]);
      assert (cs + [c])[1..] == cs[1..] + [c];
      CombinedAppend(cs[1..], Combine(start, cs[0].b.crc), c);
    }
  }

  lemma {:induction false} TextsAppend(cs: seq<Closed>, c: Closed)
    ensures Texts(cs + [c]) == Texts(cs) + Text(c.pairs)
  {
    hide Text;
    if cs == [] {
      assert [] + [c] == [c] && Texts([c][1..]) == [];
    } else {
      assert (cs + [c])[1..] == cs[1..] + [c];
      TextsAppend(cs[1..], c);
    }
  }

  lemma {:induction false} ClosedBitsAppend(cs: seq<Closed>, table: seq<word>, bs: int, c: Closed)
    requires |table| == 256 && AllClosed(cs, table, bs) && ValidClosed(c, table, bs)
    ensures AllClosed(cs + [c], table, bs) && ClosedBits(cs + [c], table, bs) == ClosedBits(cs, table, bs)
            + BlockBits(c.b, 100000 * bs)
  {
    hide ValidClosed, BlockBits, ValidBlock;
    if cs == [] {
      ValidInClosed(c, table, bs);
      assert [] + [c] == [c] && ClosedBits([c][1..], table, bs) == [];
    } else {
      ValidInClosed(cs[0], table, bs);
      ValidInClosed(c, table, bs);
      assert (cs + [c])[1..] == cs[1..] + [c];
      ClosedBitsAppend(cs[1..], table, bs, c);
      Assoc(BlockBits(cs[0].b, 100000 * bs), ClosedBits(cs[1..], table, bs), BlockBits(c.b, 100000 * bs));
    }
  }

  lemma ValidInClosed(c: Closed, table: seq<word>, bs: int)
    requires |table| == 256 && ValidClosed(c, table, bs)
    ensures ValidBlock(c.b, 100000 * bs) && 0 <= c.b.crc < 0x1_0000_0000
  {
    hide BlockBits;
  }

  /** The block is closed: its runs move into the closed blocks. */
  lemma BlockCloses(table: seq<word>, bs: int, accepted: seq<byte>, closed: seq<Closed>, pairs: seq<Pair>, ch: int,
      len: nat, combined: word, c: Closed)
    requires |table| == 256 && History(table, bs, accepted, closed, pairs, ch, len, combined)
    requires ValidClosed(c, table, bs) && c.pairs == pairs
    ensures 0 <= c.b.crc < 0x1_0000_0000
    ensures History(table, bs, accepted, closed + [c], [], ch, len, Combine(combined, c.b.crc))
  {
    ValidInClosed(c, table, bs);
    CombinedAppend(closed, 0, c);
    TextsAppend(closed, c);
    hide ValidClosed, Texts, Combined, Combine;
    assert AllClosed(closed + [c], table, bs);
    assert Text([]) == [];
    assert Texts(closed + [c]) + [] == Texts(closed + [c]);
  }

  // ------------------------------------------------------------ what has been written

  /** The bytes sent before and the bits in the sink make up the header and the closed blocks. */
  ghost predicate Written(table: seq<word>, bs: int, closed: seq<Closed>, header: bool, sent: seq<byte>,
      bits: seq<bool>)
    requires |table| == 256
  {
    && 1 <= bs <= 9 && AllClosed(closed, table, bs)
    && Unpack(sent) + bits == (if header then BytesBits(StreamMagic(bs)) + ClosedBits(closed, table, bs) else [])
    && (!header ==> closed == [])
  }

  /** The bytes are a whole stream, its last byte filled up with zero bits. */
  ghost predicate Whole(table: seq<word>, bs: int, closed: seq<Closed>, bytes: seq<byte>)
    requires |table| == 256
  {
    && 1 <= bs <= 9 && AllClosed(closed, table, bs)
    && exists pad: nat :: pad < 8 && Unpack(bytes) == StreamBits(closed, table, bs) + Zeros(pad)
  }

  // ------------------------------------------------------------ the stream object

  datatype Mode = Idle | Running | Flushing | Finishing
  datatype Side = AtInput | AtOutput
  datatype Action = BZ_RUN | BZ_FLUSH | BZ_FINISH | OtherAction
  datatype Answer = BZ_RUN_OK | BZ_FLUSH_OK | BZ_FINISH_OK | StreamEnd | SequenceError | ParamError

  class Compressor {
    const table: seq<word>
    const blockSize100k: int
    const workFactor: int
    /** The caller's side. */
    var nextIn: seq<byte>
    var availOut: nat
    var output: seq<byte>
    /** The compressor's side. */
    var mode: Mode
    var state: Side
    var availInExpect: int
    var stateInCh: int
    var stateInLen: nat
    var block: seq<byte>
    const inUse: array<bool>
    const sink: BitSink
    var stateOutPos: nat
    var blockCRC: word
    var combinedCRC: word
    var blockNo: int
    /**
     * All input read; the runs of the current block; the closed blocks; bytes of earlier blocks; header and trailer
     * written.
     */
    ghost var accepted: seq<byte>
    ghost var pairs: seq<Pair>
    ghost var closed: seq<Closed>
    ghost var sent: seq<byte>
    ghost var header: bool
    ghost var ended: bool

    function NblockMAX(): int {
      100000 * blockSize100k - 19
    }

    ghost predicate Remembers()
      reads this
    {
      |table| == 256 && History(table, blockSize100k, accepted, closed, pairs, stateInCh, stateInLen, combinedCRC)
    }

    ghost predicate Fills()
      reads this, inUse
    {
      && |table| == 256 && inUse as object != sink && inUse as object != this
      && Filling(table, block, pairs, inUse[..], blockCRC)
    }

    /** Room for a block: nothing written for it yet. */
    ghost predicate Open()
      reads this, sink
    {
      && |table| == 256 && 1 <= blockSize100k <= 9 && sink as object != this && blockNo >= 1
      && sink.Valid() && sink.zbits == [] && stateOutPos == 0 && !ended && header == (blockNo > 1)
      && Written(table, blockSize100k, closed, header, sent, sink.bits) && output == sent
    }

    /** A block, or the last block and the trailer, to be copied out. */
    ghost predicate Filled()
      reads this, sink
    {
      && |table| == 256 && 1 <= blockSize100k <= 9 && sink as object != this && blockNo >= 1
      && header && stateOutPos <= |sink.zbits| && output == sent + sink.zbits[..stateOutPos]
      && (!ended ==> sink.Valid() && Written(table, blockSize100k, closed, true, sent, sink.bits))
      && (ended ==> Whole(table, blockSize100k, closed, sent + sink.zbits))
    }

    /** `BZ2_bzCompressInit` with a block size and a work factor in their ranges; work factor 0 stands for 30. */
    constructor (table: seq<word>, blockSize100k: int, workFactor: int)
      requires |table| == 256 && 1 <= blockSize100k <= 9 && 0 <= workFactor <= 250
      ensures Remembers() && Fills() && Open() && mode == Running && state == AtInput && stateInCh == 256 && block == []
      ensures accepted == [] && nextIn == [] && output == [] && this.table == table
              && this.blockSize100k == blockSize100k
      ensures this.workFactor == if workFactor == 0 then 30 else workFactor
      ensures fresh(sink) && fresh(inUse)
    {
      hide History, Filling, Written, BitSink.Valid;
      this.table, this.blockSize100k := table, blockSize100k;
      this.workFactor := if workFactor == 0 then 30 else workFactor;
      nextIn, availOut, output := [], 0, [];
      mode, state, availInExpect, stateInCh, stateInLen := Running, AtInput, 0, 256, 0;
      block, stateOutPos, blockCRC, combinedCRC, blockNo := [], 0, CRC_START, 0, 1;
      inUse := new bool[256](_ => false);
      sink := new BitSink();
      accepted, pairs, closed, sent, header, ended := [], [], [], [], false, false;
      new;
      Beginning(table, blockSize100k, inUse[..]);
    }

    /** The bytes of a run enter the block and are marked as in use. */
    method AppendRun()
      requires inUse.Length == 256 && RunOk(stateInCh, stateInLen) && stateInCh < 256
      modifies `block, inUse
      ensures block == old(block) + PairBytes(Pair(stateInCh, stateInLen))
      ensures inUse[stateInCh] && (stateInLen >= 4 ==> inUse[stateInLen - 4])
      ensures forall c :: 0 <= c < 256 && old(inUse[c]) ==> inUse[c]
    {
      var ch: byte := stateInCh;
      ghost var b0 := block;
      inUse[stateInCh] := true;
      match stateInLen {
        case 1 => block := block + [ch];
        case 2 => block := block + [ch] + [ch];
        case 3 => block := block + [ch] + [ch] + [ch];
        case _ =>
          inUse[stateInLen - 4] := true;
          block := block + [ch] + [ch] + [ch] + [ch];
          block := block + [stateInLen - 4];
      }
      PairIs(b0, block, Pair(ch, stateInLen));
    }

    /** `add_pair_to_block`. */
    method AddPairToBlock()
      requires Fills() && Remembers() && stateInCh < 256
      modifies `block, `blockCRC, `pairs, inUse
      ensures Fills() && pairs == old(pairs) + [Pair(stateInCh, stateInLen)] && |block| <= |old(block)| + 5
    {
      RunIs(table, blockSize100k, accepted, closed, pairs, stateInCh, stateInLen, combinedCRC);
      MarksAre(table, block, pairs, inUse[..], blockCRC);
      hide History, Filling, PairBytes, Follows;
      ghost var p := Pair(stateInCh, stateInLen);
      ghost var b0, u0, c0 := block, inUse[..], blockCRC;
      blockCRC := RunCrc(table, blockCRC, stateInCh, stateInLen);
      AppendRun();
      FillPair(table, b0, pairs, u0, c0, p, inUse[..], blockCRC);
      pairs := pairs + [p];
    }

    /** ADD_CHAR_TO_BLOCK. */
    method AddCharToBlock(c: byte)
      requires Fills() && Remembers() && (stateInCh == 256 ==> pairs == [])
      modifies `block, `blockCRC, `pairs, `stateInCh, `stateInLen, `accepted, inUse
      ensures Fills() && Remembers() && stateInCh < 256 && |block| <= |old(block)| + 5
              && accepted == old(accepted) + [c]
    {
      RunGrows(table, blockSize100k, accepted, closed, pairs, stateInCh, stateInLen, combinedCRC, c);
      if stateInCh < 256 {
        RunJoins(table, blockSize100k, accepted, closed, pairs, stateInCh, stateInLen, combinedCRC);
      }
      RunIs(table, blockSize100k, accepted, closed, pairs, stateInCh, stateInLen, combinedCRC);
      hide History, Filling;
      if c as int != stateInCh && stateInLen == 1 {
        AddSingle();
        stateInCh := c;
      } else if c as int != stateInCh || stateInLen == 255 {
        if stateInCh < 256 {
          AddPairToBlock();
        }
        stateInCh := c;
        stateInLen := 1;
      } else {
        stateInLen := stateInLen + 1;
      }
      accepted := accepted + [c];
    }

    /** The fast track for a run of one. */
    method AddSingle()
      requires Fills() && Remembers() && stateInCh < 256 && stateInLen == 1
      modifies `block, `blockCRC, `pairs, inUse
      ensures Fills() && pairs == old(pairs) + [Pair(stateInCh, 1)] && |block| <= |old(block)| + 5
    {
      hide CrcFrom, UpdateCrc, PackRuns, Text, Texts, AllClosed, CrcsOk, Combined;
      var ch: byte := stateInCh;
      ghost var p := Pair(ch, 1);
      ghost var b0, u0, c0 := block, inUse[..], blockCRC;
      OneCrc(table, blockCRC, ch);
      blockCRC := UpdateCrc(table, blockCRC, ch);
      inUse[stateInCh] := true;
      block := block + [ch];
      PairIs(b0, block, p);
      FillPair(table, b0, pairs, u0, c0, p, inUse[..], blockCRC);
      pairs := pairs + [p];
    }

    /** `flush_RL`. */
    method FlushRL()
      requires Fills() && Remembers()
      modifies `block, `blockCRC, `pairs, `stateInCh, `stateInLen, inUse
      ensures Fills() && Remembers() && stateInCh == 256 && |block| <= |old(block)| + 5
    {
      if stateInCh < 256 {
        RunJoins(table, blockSize100k, accepted, closed, pairs, stateInCh, stateInLen, combinedCRC);
      }
      RunIs(table, blockSize100k, accepted, closed, pairs, stateInCh, stateInLen, combinedCRC);
      hide History, Filling;
      if stateInCh < 256 {
        AddPairToBlock();
      }
      stateInCh, stateInLen := 256, 0;
    }

    /** The state of the object between two of its steps. */
    ghost predicate Valid()
      reads this, sink, inUse
    {
      && Remembers() && inUse.Length == 256 && inUse as object != sink && inUse as object != this
      && (state == AtInput ==>
            Open() && Fills() && |block| < 100000 * blockSize100k - 19 && (stateInCh == 256 ==> pairs == []))
      && (state == AtOutput ==> Filled() && pairs == [])
      && Protocol()
    }

    /**
     * How mode, side and pending run go together. The key is the second line: after the pending run has been flushed,
     * a full output side means that a flush was asked for, or that the last block and the trailer have been written.
     */
    ghost predicate Protocol()
      reads this, sink
    {
      && (mode == Idle || ended ==> state == AtOutput && stateInCh == 256)
      && (state == AtOutput && stateInCh == 256 ==>
          mode != Running && availInExpect == 0 && (ended <==> mode != Flushing))
      && (mode == Idle ==> ended && stateOutPos == |sink.zbits|)
    }

    /** `copy_input_until_stop`; while flushing or finishing no more is read than was announced. */
    method CopyInput() returns (progress: bool)
      requires Fills() && Remembers() && |block| < 100000 * blockSize100k - 19 && (stateInCh == 256 ==> pairs == [])
      requires mode != Running ==> availInExpect == |nextIn|
      modifies `block, `blockCRC, `pairs, `stateInCh, `stateInLen, `accepted, `nextIn, `availInExpect, inUse
      ensures Fills() && Remembers() && (stateInCh == 256 ==> pairs == []) && |block| <= 100000 * blockSize100k - 15
      ensures mode != Running ==> availInExpect == |nextIn|
      ensures Took(old(nextIn), old(accepted), nextIn, accepted)
      ensures progress <==> |nextIn| < |old(nextIn)|
      ensures |block| >= 100000 * blockSize100k - 19 || nextIn == []
      ensures |block| >= 100000 * blockSize100k - 19 ==> progress && stateInCh < 256
    {
      hide Filling, History;
      progress := false;
      ghost var all, acc0 := nextIn, accepted;
      ghost var k := 0;
      assert all[0..] == all && acc0 + all[..0] == acc0;
      while true
        modifies `block, `blockCRC, `pairs, `stateInCh, `stateInLen, `accepted, `nextIn, `availInExpect, inUse
        invariant Fills() && Remembers() && (stateInCh == 256 ==> pairs == []) && |block| <= 100000 * blockSize100k - 15
        invariant mode != Running ==> availInExpect == |nextIn|
        invariant 0 <= k <= |all| && nextIn == all[k..] && accepted == acc0 + all[..k] && (progress <==> k > 0)
        invariant |block| >= 100000 * blockSize100k - 19 ==> progress && stateInCh < 256
        decreases |nextIn|
      {
        if |block| >= NblockMAX() { break; }
        if |nextIn| == 0 { break; }
        if mode != Running && availInExpect == 0 { break; }
        progress := true;
        AddCharToBlock(nextIn[0]);
        nextIn := nextIn[1..];
        if mode != Running { availInExpect := availInExpect - 1; }
        k := k + 1;
        assert acc0 + all[..k] == acc0 + all[..k - 1] + [all[k - 1]];
      }
    }

    /** `copy_output_until_stop`. */
    method CopyOutput() returns (progress: bool)
      requires Filled()
      modifies `output, `availOut, `stateOutPos
      ensures Filled() && old(output) <= output && stateOutPos >= old(stateOutPos)
      ensures availOut == 0 || stateOutPos == |sink.zbits|
      ensures progress <==> |output| > |old(output)|
      ensures |output| + availOut == |old(output)| + old(availOut)
              && |output| - stateOutPos == |old(output)| - old(stateOutPos)
      ensures old(availOut) > 0 && old(Pending()) > 0 ==> progress
    {
      hide Written, Whole;
      progress := false;
      while true
        modifies `output, `availOut, `stateOutPos
        invariant Filled() && old(output) <= output && stateOutPos >= old(stateOutPos)
                  && (progress <==> |output| > |old(output)|)
        invariant |output| + availOut == |old(output)| + old(availOut)
                  && |output| - stateOutPos == |old(output)| - old(stateOutPos)
        decreases availOut
      {
        if availOut == 0 { break; }
        if stateOutPos >= |sink.zbits| { break; }
        progress := true;
        OneMoreByte(sent, sink.zbits, stateOutPos);
        output := output + [sink.zbits[stateOutPos]];
        stateOutPos := stateOutPos + 1;
        availOut := availOut - 1;
      }
    }

    method ClearMarks()
      requires inUse.Length == 256 && |table| == 256 && inUse as object != sink && inUse as object != this
      modifies `block, `blockCRC, inUse
      ensures block == [] && (pairs == [] ==> Fills())
    {
      hide Filling;
      block, blockCRC := [], CRC_START;
      for i := 0 to 256
        modifies inUse
        invariant forall c :: 0 <= c < i ==> !inUse[c]
      {
        inUse[i] := false;
      }
      BlankBlockIn(table, inUse[..]);
    }

    /** The bytes of the closed block have all been copied out. */
    method EmptySink()
      requires Filled() && !ended && stateOutPos == |sink.zbits|
      modifies `stateOutPos, `sent, `blockNo, sink
      ensures Open()
    {
      hide AllClosed, ClosedBits, BytesBits, BitSink.Valid, Unpack;
      ghost var z, b := sink.zbits, sink.bits;
      assert z[..stateOutPos] == z;
      sink.Empty();
      UnpackAppend(sent, z);
      Assoc(Unpack(sent), Unpack(z), sink.bits);
      sent := sent + z;
      stateOutPos := 0;
      blockNo := blockNo + 1;
    }

    /** `prepare_new_block`, once the last block's bytes are out. */
    method PrepareNewBlock()
      requires Filled() && Remembers() && pairs == [] && !ended && stateOutPos == |sink.zbits|
      requires inUse.Length == 256 && inUse as object != sink && inUse as object != this
      modifies `block, `blockCRC, `blockNo, `stateOutPos, `sent, sink, inUse
      ensures Open() && Fills() && Remembers() && block == []
    {
      hide Filling, History, Written, Whole, BitSink.Valid;
      EmptySink();
      ClearMarks();
    }

    /** The first block's header. */
    method WriteHeader()
      requires Open()
      modifies `header, sink
      ensures |table| == 256 && 1 <= blockSize100k <= 9 && sink.Valid() && header
      ensures Written(table, blockSize100k, closed, true, sent, sink.bits)
    {
      hide AllClosed, BytesBits, BitSink.Valid, Unpack;
      ghost var b := sink.bits;
      if blockNo == 1 {
        PutBytes(sink, StreamMagic(blockSize100k));
        Assoc(Unpack(sent), b, BytesBits(StreamMagic(blockSize100k)));
      }
      header := true;
      FirstHeader(table, blockSize100k, BytesBits(StreamMagic(blockSize100k)));
    }

    /** A block that holds something is sorted, coded and written; its CRC goes into the combined one. */
    method CloseBlock()
      requires |table| == 256 && 1 <= blockSize100k <= 9 && Remembers() && Fills()
               && 0 < |block| <= 100000 * blockSize100k
      requires sink.Valid() && Written(table, blockSize100k, closed, true, sent, sink.bits)
      modifies `blockCRC, `combinedCRC, `closed, `pairs, sink
      ensures Remembers() && pairs == [] && sink.Valid() && Written(table, blockSize100k, closed, true, sent, sink.bits)
    {
      hide History, Filling, Written, ValidClosed, ValidBlock, BlockBits, Runs, PackRuns, Text, Finalise, Combine,
          CrcFrom, BitSink.Valid;
      FillsParts(this);
      CrcOfIs(table, Text(pairs));
      blockCRC := Finalise(blockCRC);
      ghost var b, cs := sink.bits, closed;
      ghost var c := WriteClosed(sink, block, inUse, blockCRC, workFactor, table, blockSize100k, pairs);
      ValidInClosed(c, table, blockSize100k);
      BlockCloses(table, blockSize100k, accepted, closed, pairs, stateInCh, stateInLen, combinedCRC, c);
      WrittenMore(table, blockSize100k, closed, sent, b, sink.bits, c);
      combinedCRC := Combine(combinedCRC, blockCRC);
      closed, pairs := closed + [c], [];
    }

    /** The trailer: end marker, combined CRC, and zero bits up to a whole byte. */
    method WriteTrailer()
      requires |table| == 256 && Remembers() && sink.Valid()
               && Written(table, blockSize100k, closed, true, sent, sink.bits)
      modifies `ended, sink
      ensures ended && Whole(table, blockSize100k, closed, sent + sink.zbits) && sink.zbits != []
    {
      CombinedIs(this);
      hide *;
      ghost var b := sink.bits;
      PutBytes(sink, END_MAGIC);
      sink.PutUInt32(combinedCRC);
      sink.FinishWrite();
      SomeBytes(sink.bits, sink.zbits);
      TrailerJoins(table, blockSize100k, closed, sent, b, sink.bits, sink.zbits);
      ended := true;
    }

    /** `BZ2_compressBlock`. */
    method CompressBlock(last: bool)
      requires Open() && Fills() && Remembers() && |block| <= 100000 * blockSize100k
      modifies `blockCRC, `combinedCRC, `closed, `pairs, `header, `ended, sink
      ensures Filled() && Remembers() && pairs == [] && (ended <==> last) && (last ==> sink.zbits != [])
    {
      hide History, Filling, Written, Whole, BitSink.Valid, PackRuns, Text, CrcFrom, Runs;
      FillsParts(this);
      WriteHeader();
      if |block| > 0 {
        CloseBlock();
      }
      if last {
        WriteTrailer();
      }
      assert sink.zbits[..0] == [] && output == sent + [];
    }

    /** The bytes of the sink that have not been copied out. */
    ghost function Pending(): int
      reads this, sink
    {
      |sink.zbits| - stateOutPos
    }

    /** Where `handle_compress` stops: no room; all done; flushed; or no input. */
    ghost predicate Rests()
      reads this, sink
    {
      || (state == AtOutput && stateOutPos < |sink.zbits| && availOut == 0)
      || (mode == Finishing && state == AtOutput && stateInCh == 256 && availInExpect == 0
          && stateOutPos == |sink.zbits|)
      || (mode == Flushing && state == AtInput && stateInCh == 256 && availInExpect == 0)
      || (mode == Running && state == AtInput && nextIn == [])
    }

    /** The first half of a turn: bytes go out, and then room is made for the next block. */
    method FromOutput() returns (stop: bool, progress: bool)
      requires Valid() && state == AtOutput && mode != Idle && (mode != Running ==> availInExpect == |nextIn|)
      modifies `output, `availOut, `stateOutPos, `state, `block, `blockCRC, `blockNo, `sent, sink, inUse
      ensures Valid() && old(output) <= output && (progress <==> |output| > |old(output)|)
      ensures if stop then Rests() else state == AtInput && stateInCh < 256
      ensures |output| + availOut == |old(output)| + old(availOut) && Pending() + |output| == old(Pending() + |output|)
      ensures old(availOut) > 0 && old(Pending()) > 0 ==> progress
    {
      hide History, Filling, Written, Whole, BitSink.Valid;
      stop := true;
      RunIs(table, blockSize100k, accepted, closed, pairs, stateInCh, stateInLen, combinedCRC);
      progress := CopyOutput();
      if stateOutPos < |sink.zbits| { return; }
      if mode == Finishing && availInExpect == 0 && stateInCh == 256 { return; }
      PrepareNewBlock();
      state := AtInput;
      if mode == Flushing && availInExpect == 0 && stateInCh == 256 { return; }
      stop := false;
    }

    /** The second half: bytes come in, and a full or a last block is compressed. */
    method FromInput() returns (stop: bool, progress: bool)
      requires Valid() && state == AtInput && mode != Idle && (mode != Running ==> availInExpect == |nextIn|)
      modifies `block, `blockCRC, `pairs, `stateInCh, `stateInLen, `accepted, `nextIn, `availInExpect,
               `combinedCRC, `closed, `header, `ended, `state, sink, inUse
      ensures Valid() && Took(old(nextIn), old(accepted), nextIn, accepted) && (progress <==> |nextIn| < |old(nextIn)|)
      ensures mode != Running ==> availInExpect == |nextIn|
      ensures if stop then Rests() else state == AtOutput && (stateInCh == 256 || |nextIn| < |old(nextIn)|)
      ensures mode == Finishing && |nextIn| == |old(nextIn)| ==> ended && Pending() > 0
      ensures mode == Running && |nextIn| == |old(nextIn)| ==> ended == old(ended) && Pending() == old(Pending())
    {
      hide History, Filling, Written, Whole, BitSink.Valid;
      stop := false;
      progress := CopyInput();
      if mode != Running && availInExpect == 0 {
        FlushRL();
        CompressBlock(mode == Finishing);
        state := AtOutput;
      } else if |block| >= NblockMAX() {
        CompressBlock(false);
        state := AtOutput;
      } else if |nextIn| == 0 {
        stop := true;
      }
    }

    /**
     * A turn that takes no input in, without flushing: while finishing the last block has been written in it, and
     * there are bytes of it, or nothing has happened but that bytes were copied out.
     */
    ghost predicate Nearer(ended0: bool, left0: int, out0: int)
      reads this, sink
    {
      if ended == ended0 then Pending() + |output| == left0 else ended && Pending() + |output| > out0
    }

    /** What a call has done so far: input taken, output given, and how near the end is. */
    ghost predicate Along(all: seq<byte>, acc0: seq<byte>, out0: seq<byte>, ended0: bool, left0: int, room: int)
      reads this, sink, inUse
    {
      && Valid() && mode != Idle && (mode != Running ==> availInExpect == |nextIn|)
      && Took(all, acc0, nextIn, accepted) && out0 <= output && |output| + availOut == |out0| + room
      && (mode != Flushing && |nextIn| == |all| ==> Nearer(ended0, left0, |out0|))
    }

    /** One turn of the loop: bytes out, bytes in. */
    method Turn(ghost all: seq<byte>, ghost acc0: seq<byte>, ghost out0: seq<byte>, ghost ended0: bool,
                ghost left0: int, ghost room: int)
        returns (stop: bool, progressIn: bool, progressOut: bool)
      requires Along(all, acc0, out0, ended0, left0, room)
      modifies `block, `blockCRC, `pairs, `stateInCh, `stateInLen, `accepted, `nextIn, `availInExpect, `combinedCRC,
               `closed, `header,
               `ended, `state, `output, `availOut, `stateOutPos, `blockNo, `sent, sink, inUse
      ensures Along(all, acc0, out0, ended0, left0, room) && (stop ==> Rests())
      ensures |nextIn| <= |old(nextIn)| && (progressIn <==> |nextIn| < |old(nextIn)|)
      ensures old(output) <= output && (progressOut <==> |output| > |old(output)|)
      ensures old(availOut) > 0 && old(Pending()) > 0 ==> progressOut
      ensures !stop ==> |nextIn| < |old(nextIn)| || (state == AtOutput && stateInCh == 256
                                                     && (old(state) == AtInput || old(stateInCh) != 256))
    {
      hide *;
      AlongHas(this, all, acc0, out0, ended0, left0, room);
      NothingWaits(this);
      NearerMeans(this, ended0, left0, |out0|);
      progressIn, progressOut := false, false;
      if state == AtOutput {
        stop, progressOut := FromOutput();
        NearerMeans(this, ended0, left0, |out0|);
        if stop {
          AlongIs(this, all, acc0, out0, ended0, left0, room);
          return;
        }
      }
      NotEnded(this);
      ghost var now, acc1 := nextIn, accepted;
      stop, progressIn := FromInput();
      TookMore(all, acc0, now, acc1, nextIn, accepted);
      NearerMeans(this, ended0, left0, |out0|);
      AlongIs(this, all, acc0, out0, ended0, left0, room);
    }

    /** `handle_compress`. */
    method HandleCompress() returns (progress: bool)
      requires Valid() && mode != Idle && (mode != Running ==> availInExpect == |nextIn|)
      modifies `block, `blockCRC, `pairs, `stateInCh, `stateInLen, `accepted, `nextIn, `availInExpect, `combinedCRC,
               `closed, `header,
               `ended, `state, `output, `availOut, `stateOutPos, `blockNo, `sent, sink, inUse
      ensures Valid() && Rests() && Took(old(nextIn), old(accepted), nextIn, accepted) && old(output) <= output
      ensures mode != Running ==> availInExpect == |nextIn|
      ensures progress <==> |nextIn| < |old(nextIn)| || |output| > |old(output)|
      ensures |output| + availOut == |old(output)| + old(availOut)
      ensures old(availOut) > 0 && old(Pending()) > 0 ==> |output| > |old(output)|
      ensures mode != Flushing && |nextIn| == |old(nextIn)|
              ==> Nearer(old(ended), old(Pending() + |output|), |old(output)|)
    {
      var progressIn, progressOut := false, false;
      ghost var all, acc0, out0, room := nextIn, accepted, output, availOut;
      ghost var ended0, left0, some := ended, Pending() + |output|, availOut > 0 && Pending() > 0;
      TookNone(all, acc0);
      NearerStarts(this);
      hide *;
      AlongIs(this, all, acc0, out0, ended0, left0, room);
      while true
        modifies `block, `blockCRC, `pairs, `stateInCh, `stateInLen, `accepted, `nextIn, `availInExpect, `combinedCRC,
                 `closed, `header,
                 `ended, `state, `output, `availOut, `stateOutPos, `blockNo, `sent, sink, inUse
        invariant Along(all, acc0, out0, ended0, left0, room) && |nextIn| <= |all| && |out0| <= |output|
        invariant (progressIn <==> |nextIn| < |all|) && (progressOut <==> |output| > |out0|)
        invariant some ==> progressOut || (availOut > 0 && Pending() > 0)
        decreases |nextIn|, if state == AtOutput && stateInCh == 256 then 0 else 1
      {
        var stop, i, o := Turn(all, acc0, out0, ended0, left0, room);
        progressIn, progressOut := progressIn || i, progressOut || o;
        if stop { break; }
      }
      AlongHas(this, all, acc0, out0, ended0, left0, room);
      progress := progressIn || progressOut;
    }

    /** `isempty_RL`. */
    predicate IsEmptyRL()
      reads this
    {
      !(stateInCh < 256 && stateInLen > 0)
    }

    /** The tail of the flushing and finishing cases: is anything left to encode or to copy out? */
    predicate Unfinished()
      reads this, sink
    {
      availInExpect > 0 || !IsEmptyRL() || stateOutPos < |sink.zbits|
    }

    /**
     * A call that finishes is in order: none has been made, or the last one left something to do and no input has come
     * since.
     */
    ghost predicate MayFinish()
      reads this, sink
    {
      mode == Running || (mode == Finishing && availInExpect == |nextIn| && Unfinished())
    }

    /** What may be asked for: anything, or the flush or the end that is under way, without new input. */
    ghost predicate InOrder(action: Action)
      reads this
    {
      match mode
      case Running => action != OtherAction
      case Flushing => action == BZ_FLUSH && availInExpect == |nextIn|
      case Finishing => action == BZ_FINISH && availInExpect == |nextIn|
      case Idle => false
    }

    /**
     * `BZ2_bzCompress`. A call in order goes on until the input or the room is used up, and answers an error only if
     * there was nothing to do; a call out of order does nothing. BZ_STREAM_END is the one answer that leads to the
     * idle mode, and in the idle mode nothing but BZ_SEQUENCE_ERROR is answered and nothing happens; a flush that is
     * done leaves no input outside closed blocks. A call that finishes, in order and with any room at all, ends the
     * stream or fills the room.
     */
    method BzCompress(action: Action) returns (ret: Answer)
      requires Valid()
      modifies this, sink, inUse
      ensures Valid() && Took(old(nextIn), old(accepted), nextIn, accepted) && old(output) <= output
      ensures mode == Idle <==> old(mode) == Idle || ret == StreamEnd
      ensures old(mode) == Idle ==> ret == SequenceError && output == old(output) && nextIn == old(nextIn)
      ensures ret == StreamEnd ==> action == BZ_FINISH && nextIn == [] && |output| + |old(nextIn)| > |old(output)|
      ensures !old(InOrder(action)) ==>
                ret == (if old(mode) == Running then ParamError else SequenceError) && mode == old(mode)
                && output == old(output) && nextIn == old(nextIn)
      ensures old(InOrder(action)) ==> nextIn == [] || availOut == 0
      ensures old(InOrder(action)) && action == BZ_RUN ==> (ret == BZ_RUN_OK || ret == ParamError) && mode == Running
      ensures old(InOrder(action)) && action == BZ_RUN && old(availOut) > 0 ==>
                (ret == ParamError <==> old(nextIn) == [] && old(Pending()) == 0)
      ensures old(InOrder(action)) && action == BZ_RUN ==>
                (ret == ParamError <==> |nextIn| == |old(nextIn)| && |output| == |old(output)|)
                && (|nextIn| == |old(nextIn)| ==> Pending() + |output| == old(Pending() + |output|))
      ensures old(InOrder(action)) && action == BZ_RUN && old(availOut) > 0 && old(Pending()) > 0 ==>
                |output| > |old(output)|
      ensures old(InOrder(action)) && action == BZ_RUN ==> Pending() > 0 || nextIn == []
      ensures old(InOrder(action)) && action == BZ_RUN && availOut > 0 ==> Pending() == 0
      ensures old(InOrder(action)) && action == BZ_FLUSH ==> ret == BZ_RUN_OK || ret == BZ_FLUSH_OK
      ensures ret == BZ_RUN_OK && action == BZ_FLUSH ==>
              mode == Running && nextIn == [] && accepted == Texts(closed) && output == sent
      ensures ret == BZ_FINISH_OK ==> mode == Finishing && Unfinished() && availOut == 0
      ensures ret == BZ_FLUSH_OK ==> mode == Flushing && Unfinished() && availOut == 0
      ensures |output| + availOut == |old(output)| + old(availOut)
      ensures action == BZ_FINISH && old(MayFinish()) && old(availOut) > 0
              ==> ret == StreamEnd || (ret == BZ_FINISH_OK && MayFinish())
      ensures ret == BZ_FINISH_OK && |nextIn| == |old(nextIn)|
              ==> Nearer(old(ended), old(Pending() + |output|), |old(output)|)
    {
      hide *;
      FinishingSide(this);
      MayFinishIs(this);
      InOrderIs(this, action);
      TookNone(nextIn, accepted);
      if mode == Idle { return SequenceError; }
      if mode == Running {
        if action == BZ_RUN {
          ret := GoOnRunning();
          return;
        } else if action == BZ_FLUSH || action == BZ_FINISH {
          Announce(if action == BZ_FLUSH then Flushing else Finishing);
        } else {
          return ParamError;
        }
      }
      if mode == Flushing {
        ret := GoOnFlushing(action);
      } else {
        ret := GoOnFinishing(action);
        MayFinishIs(this);
      }
    }

    /** The caller offers more input and sets the room for output. */
    method Offer(input: seq<byte>, room: nat)
      requires Valid()
      modifies `nextIn, `availOut
      ensures Valid() && nextIn == old(nextIn) + input && availOut == room && Pending() == old(Pending())
      ensures input == [] || mode == Running ==> MayFinish() == old(MayFinish())
    {
      hide History, Filling, Written, Whole, BitSink.Valid;
      assert input == [] ==> nextIn + input == nextIn;
      nextIn, availOut := nextIn + input, room;
    }

    /** The input on offer is all that the flush or the end of the stream will take in. */
    method Announce(m: Mode)
      requires Valid() && mode == Running && (m == Flushing || m == Finishing)
      modifies `mode, `availInExpect
      ensures Valid() && mode == m && availInExpect == |nextIn| && !ended && Pending() == old(Pending())
    {
      hide History, Filling, Written, Whole, BitSink.Valid;
      availInExpect, mode := |nextIn|, m;
    }

    method GoOnRunning() returns (ret: Answer)
      requires Valid() && mode == Running
      modifies this, sink, inUse
      ensures Valid() && Took(old(nextIn), old(accepted), nextIn, accepted) && old(output) <= output && mode == Running
      ensures ret == if |nextIn| < |old(nextIn)| || |output| > |old(output)| then BZ_RUN_OK else ParamError
      ensures |output| + availOut == |old(output)| + old(availOut) && (nextIn == [] || availOut == 0)
      ensures |nextIn| <= |old(nextIn)|
      ensures |nextIn| == |old(nextIn)| ==> Pending() + |output| == old(Pending() + |output|)
      ensures old(availOut) > 0 ==> (ret == ParamError <==> old(nextIn) == [] && old(Pending()) == 0)
      ensures old(availOut) > 0 && old(Pending()) > 0 ==> |output| > |old(output)|
      ensures (Pending() > 0 || nextIn == []) && (availOut > 0 ==> Pending() == 0)
    {
      NotEndedYet(this);
      PendingBytes(this);
      TookNone(nextIn, accepted);
      hide Valid, Took, Rests;
      var progress := HandleCompress();
      NotEndedYet(this);
      PendingBytes(this);
      RunningRests(this);
      ret := if progress then BZ_RUN_OK else ParamError;
    }

    method GoOnFlushing(action: Action) returns (ret: Answer)
      requires Valid() && mode == Flushing
      modifies this, sink, inUse
      ensures Valid() && Took(old(nextIn), old(accepted), nextIn, accepted) && old(output) <= output
      ensures mode == Flushing || mode == Running
      ensures if action == BZ_FLUSH && old(availInExpect) == |old(nextIn)| then nextIn == [] || availOut == 0
              else mode == old(mode) && output == old(output) && nextIn == old(nextIn)
      ensures if action != BZ_FLUSH || old(availInExpect) != |old(nextIn)| then ret == SequenceError
              else if mode == Running then ret == BZ_RUN_OK && nextIn == [] && accepted == Texts(closed)
                  && output == sent
              else ret == BZ_FLUSH_OK && Unfinished() && availOut == 0
      ensures |output| + availOut == |old(output)| + old(availOut)
    {
      TookNone(nextIn, accepted);
      hide History, Filling, Written, Whole, BitSink.Valid, Took;
      if action != BZ_FLUSH { return SequenceError; }
      if availInExpect != |nextIn| { return SequenceError; }
      var progress := HandleCompress();
      RunIs(table, blockSize100k, accepted, closed, pairs, stateInCh, stateInLen, combinedCRC);
      if Unfinished() { return BZ_FLUSH_OK; }
      AllInBlocks(this);
      mode := Running;
      ret := BZ_RUN_OK;
    }

    method GoOnFinishing(action: Action) returns (ret: Answer)
      requires Valid() && mode == Finishing
      modifies this, sink, inUse
      ensures Valid() && Took(old(nextIn), old(accepted), nextIn, accepted) && old(output) <= output
      ensures if ret == StreamEnd then mode == Idle else mode == Finishing
      ensures if action == BZ_FINISH && old(availInExpect) == |old(nextIn)| then nextIn == [] || availOut == 0
              else output == old(output) && nextIn == old(nextIn)
      ensures if action != BZ_FINISH || old(availInExpect) != |old(nextIn)| then ret == SequenceError
              else if mode == Idle then ret == StreamEnd && nextIn == [] && |output| + |old(nextIn)| > |old(output)|
              else if |nextIn| < |old(nextIn)| || |output| > |old(output)|
              then ret == BZ_FINISH_OK && Unfinished() && availOut == 0 && availInExpect == |nextIn|
              else ret == SequenceError && (old(availOut) == 0 || (old(ended) && old(Pending()) == 0))
      ensures |output| + availOut == |old(output)| + old(availOut)
      ensures ret == BZ_FINISH_OK && |nextIn| == |old(nextIn)|
              ==> Nearer(old(ended), old(Pending() + |output|), |old(output)|)
    {
      TookNone(nextIn, accepted);
      hide History, Filling, Written, Whole, BitSink.Valid, Took;
      if action != BZ_FINISH { return SequenceError; }
      if availInExpect != |nextIn| { return SequenceError; }
      var progress := HandleCompress();
      RunIs(table, blockSize100k, accepted, closed, pairs, stateInCh, stateInLen, combinedCRC);
      if !progress { return SequenceError; }
      if Unfinished() { return BZ_FINISH_OK; }
      mode := Idle;
      ret := StreamEnd;
    }
  }

  /** With no run pending and no block begun, all accepted input is in closed blocks. */
  lemma AllInBlocks(c: Compressor)
    requires c.Remembers() && c.pairs == [] && c.stateInCh == 256
    ensures c.accepted == Texts(c.closed)
  {
    hide Texts, AllClosed, CrcsOk;
    assert Text([]) == [] && Texts(c.closed) + [] + [] == Texts(c.closed);
  }

  lemma InOrderIs(c: Compressor, action: Action)
    ensures c.InOrder(action) <==>
            (c.mode == Running && action != OtherAction)
            || (c.mode == Flushing && action == BZ_FLUSH && c.availInExpect == |c.nextIn|)
            || (c.mode == Finishing && action == BZ_FINISH && c.availInExpect == |c.nextIn|)
  {
  }

  lemma NearerMeans(c: Compressor, ended0: bool, left0: int, out0: int)
    ensures c.Nearer(ended0, left0, out0) <==>
            if c.ended == ended0 then c.Pending() + |c.output| == left0 else c.ended && c.Pending() + |c.output| > out0
  {
  }

  lemma NearerStarts(c: Compressor)
    ensures c.Nearer(c.ended, c.Pending() + |c.output|, |c.output|)
  {
  }

  lemma AlongHas(c: Compressor, all: seq<byte>, acc0: seq<byte>, out0: seq<byte>, ended0: bool, left0: int, room: int)
    requires c.Along(all, acc0, out0, ended0, left0, room)
    ensures c.Valid() && c.mode != Idle && (c.mode != Running ==> c.availInExpect == |c.nextIn|)
    ensures Took(all, acc0, c.nextIn, c.accepted) && out0 <= c.output && |c.output| + c.availOut == |out0| + room
    ensures c.mode != Flushing && |c.nextIn| == |all| ==> c.Nearer(ended0, left0, |out0|)
  {
  }

  lemma AlongIs(c: Compressor, all: seq<byte>, acc0: seq<byte>, out0: seq<byte>, ended0: bool, left0: int, room: int)
    requires c.Valid() && c.mode != Idle && (c.mode != Running ==> c.availInExpect == |c.nextIn|)
    requires Took(all, acc0, c.nextIn, c.accepted) && out0 <= c.output && |c.output| + c.availOut == |out0| + room
    requires c.mode != Flushing && |c.nextIn| == |all| ==> c.Nearer(ended0, left0, |out0|)
    ensures c.Along(all, acc0, out0, ended0, left0, room)
  {
  }

  lemma NotEndedYet(c: Compressor)
    requires c.Valid() && c.mode == Running
    ensures !c.ended
  {
    hide History, Filling, Written, Whole, BitSink.Valid;
  }

  /** A running compressor that rests has used up the input, and has nothing to copy out, or the room. */
  lemma RunningRests(c: Compressor)
    requires c.Valid() && c.mode == Running && c.Rests()
    ensures c.availOut == 0 || (c.nextIn == [] && c.Pending() == 0)
    ensures (c.nextIn == [] || c.availOut == 0) && (c.Pending() > 0 || c.nextIn == [])
  {
    hide History, Filling, Written, Whole, BitSink.Valid;
  }

  /** Bytes wait to be copied out on the output side only. */
  lemma NothingWaits(c: Compressor)
    requires c.Valid()
    ensures c.Pending() > 0 ==> c.state == AtOutput
  {
    hide History, Filling, Written, Whole, BitSink.Valid;
  }

  lemma PendingBytes(c: Compressor)
    requires c.Valid()
    ensures c.Pending() >= 0
  {
    hide History, Filling, Written, Whole, BitSink.Valid;
  }

  /**
   * The way to the end of a stream: calls that finish, each with room for at least one byte, until one answers
   * BZ_STREAM_END. Every call takes in input, or writes the last block, or copies out what was waiting.
   */
  method FinishUp(c: Compressor, room: nat)
    requires c.Valid() && c.MayFinish() && room > 0
    modifies c, c.sink, c.inUse
    ensures c.Valid() && c.mode == Idle && c.nextIn == [] && c.accepted == old(c.accepted + c.nextIn)
  {
    hide *;
    var done := false;
    MayFinishIs(c);
    while !done
      modifies c, c.sink, c.inUse
      invariant c.Valid() && (done <==> c.mode == Idle) && (!done ==> c.MayFinish())
      invariant c.accepted + c.nextIn == old(c.accepted + c.nextIn) && (done ==> c.nextIn == [])
      decreases !done, |c.nextIn|, !c.ended, c.Pending()
    {
      PendingBytes(c);
      MayFinishIs(c);
      ghost var (acc0, rest, ended0, left0, out0) := (c.accepted, c.nextIn, c.ended, c.Pending() + |c.output|,
          |c.output|);
      c.Offer([], room);
      assert rest + [] == rest;
      var ret := c.BzCompress(BZ_FINISH);
      TookKeeps(rest, acc0, c.nextIn, c.accepted);
      done := ret == StreamEnd;
      if !done && |c.nextIn| == |rest| { NearerIs(c, ended0, left0, out0); }
      MayFinishIs(c);
    }
    assert c.accepted + [] == c.accepted;
  }

  lemma NearerIs(c: Compressor, ended0: bool, left0: int, out0: int)
    requires c.Nearer(ended0, left0, out0)
    ensures if c.ended == ended0 then c.Pending() + |c.output| == left0 else c.ended
  {
  }

  lemma TookKeeps(all: seq<byte>, acc0: seq<byte>, now: seq<byte>, acc: seq<byte>)
    requires Took(all, acc0, now, acc)
    ensures acc + now == acc0 + all && |now| <= |all| && (now == [] ==> acc == acc0 + all)
  {
    assert all == all[..|all| - |now|] + all[|all| - |now|..];
  }

  /**
   * In the idle mode everything accepted is encoded: the output is a whole stream, trailer included, whose blocks
   * spell the accepted input.
   */
  lemma IdleIsComplete(c: Compressor)
    requires c.Valid() && c.mode == Idle
    ensures c.accepted == Texts(c.closed) && Whole(c.table, c.blockSize100k, c.closed, c.output)
  {
    hide History, Filling, Whole, Written;
    assert c.sink.zbits[..c.stateOutPos] == c.sink.zbits;
    AllInBlocks(c);
  }

  /** From the front of `all` some bytes have been read, and no others. */
  ghost predicate Took(all: seq<byte>, acc0: seq<byte>, now: seq<byte>, acc: seq<byte>) {
    |now| <= |all| && now == all[|all| - |now|..] && acc == acc0 + all[..|all| - |now|]
  }

  lemma TookNone(all: seq<byte>, acc: seq<byte>)
    ensures Took(all, acc, all, acc)
  {
    assert all[0..] == all && acc + all[..0] == acc;
  }

  lemma TookMore(all: seq<byte>, acc0: seq<byte>, some: seq<byte>, acc1: seq<byte>, now: seq<byte>, acc2: seq<byte>)
    requires Took(all, acc0, some, acc1) && Took(some, acc1, now, acc2)
    ensures Took(all, acc0, now, acc2) && |now| <= |some| <= |all|
  {
    assert all[..|all| - |now|] == all[..|all| - |some|] + some[..|some| - |now|];
  }

  /** Finishing with the trailer written, only bytes to copy out are left; a running compressor has not written it. */
  lemma FinishingSide(c: Compressor)
    requires c.Valid()
    ensures c.ended ==> c.mode != Running && (c.Unfinished() ==> c.Pending() > 0)
  {
    hide History, Filling, Written, Whole, BitSink.Valid;
  }

  lemma MayFinishIs(c: Compressor)
    ensures c.MayFinish() <==>
            c.mode == Running || (c.mode == Finishing && c.availInExpect == |c.nextIn| && c.Unfinished())
  {
  }

  lemma NotEnded(c: Compressor)
    requires c.Valid() && c.state == AtInput
    ensures !c.ended
  {
  }

  lemma FillsParts(c: Compressor)
    requires c.Fills()
    ensures |c.table| == 256 && c.inUse.Length == 256 && Runs(c.pairs) && (|c.block| > 0 <==> c.pairs != [])
    ensures c.inUse as object != c.sink && c.inUse as object != c
    ensures c.block == PackRuns(c.pairs) && c.blockCRC == CrcFrom(c.table, CRC_START, Text(c.pairs))
    ensures forall i :: 0 <= i < |c.block| ==> c.inUse[c.block[i]]
  {
    MarksAre(c.table, c.block, c.pairs, c.inUse[..], c.blockCRC);
    hide Filling, PackRuns;
  }

  lemma CombinedIs(c: Compressor)
    requires c.Remembers()
    ensures CrcsOk(c.closed) && c.combinedCRC == Combined(c.closed, 0)
  {
  }

  lemma FirstHeader(table: seq<word>, bs: int, magic: seq<bool>)
    requires |table| == 256 && 1 <= bs <= 9
    ensures AllClosed([], table, bs) && magic + ClosedBits([], table, bs) == magic
  {
  }

  lemma CrcOfIs(table: seq<word>, text: seq<byte>)
    requires |table| == 256
    ensures Finalise(CrcFrom(table, CRC_START, text)) == CrcOf(table, text)
  {
  }

  lemma WrittenMore(table: seq<word>, bs: int, closed: seq<Closed>, sent: seq<byte>, b: seq<bool>, b': seq<bool>,
      c: Closed)
    requires |table| == 256 && Written(table, bs, closed, true, sent, b) && ValidClosed(c, table, bs)
    requires ValidBlock(c.b, 100000 * bs) && b' == b + BlockBits(c.b, 100000 * bs)
    ensures Written(table, bs, closed + [c], true, sent, b')
  {
    hide ValidClosed, ValidBlock, BlockBits, ClosedBits, BytesBits, Unpack;
    ClosedBitsAppend(closed, table, bs, c);
    Assoc(Unpack(sent), b, BlockBits(c.b, 100000 * bs));
    Assoc(BytesBits(StreamMagic(bs)), ClosedBits(closed, table, bs), BlockBits(c.b, 100000 * bs));
  }

  lemma SomeBytes(bits: seq<bool>, z: seq<byte>)
    requires |bits| > 0 && exists pad: nat :: pad < 8 && Unpack(z) == bits + Zeros(pad)
    ensures z != []
  {
  }

  lemma TrailerJoins(table: seq<word>, bs: int, closed: seq<Closed>, sent: seq<byte>, b: seq<bool>, b': seq<bool>,
      z: seq<byte>)
    requires |table| == 256 && Written(table, bs, closed, true, sent, b) && CrcsOk(closed)
    requires b' == b + BytesBits(END_MAGIC) + ToBits(Combined(closed, 0), 32)
    requires exists pad: nat :: pad < 8 && Unpack(z) == b' + Zeros(pad)
    ensures Whole(table, bs, closed, sent + z)
  {
    var pad: nat :| pad < 8 && Unpack(z) == b' + Zeros(pad);
    UnpackAppend(sent, z);
    hide Combined, ClosedBits, BytesBits, Unpack, ToBits, Zeros;
    var (m, cb, e, t) := (BytesBits(StreamMagic(bs)), ClosedBits(closed, table, bs), BytesBits(END_MAGIC),
        ToBits(Combined(closed, 0), 32));
    JoinTrailer(Unpack(sent), b, e, t, Zeros(pad), m, cb);
    assert StreamBits(closed, table, bs) == m + (cb + (e + t));
    assert Unpack(sent + z) == StreamBits(closed, table, bs) + Zeros(pad);
  }

  lemma JoinTrailer(s: seq<bool>, b: seq<bool>, e: seq<bool>, t: seq<bool>, z: seq<bool>, m: seq<bool>, cb: seq<bool>)
    requires s + b == m + cb
    ensures s + (b + e + t + z) == m + (cb + (e + t)) + z
  {
    assert s + (b + e + t + z) == (s + b) + (e + t + z);
  }

  lemma OneMoreByte(sent: seq<byte>, z: seq<byte>, k: nat)
    requires k < |z|
    ensures sent + z[..k] + [z[k]] == sent + z[..k + 1]
  {
  }

  lemma Beginning(table: seq<word>, bs: int, inUse: seq<bool>)
    requires |table| == 256 && 1 <= bs <= 9 && |inUse| == 256
    ensures History(table, bs, [], [], [], 256, 0, 0) && Filling(table, [], [], inUse, CRC_START)
            && Written(table, bs, [], false, [], [])
  {
    assert Texts([]) + Text([]) + RunText(256, 0) == [];
    assert Unpack([]) + [] == [];
  }

  lemma BlankBlockIn(table: seq<word>, inUse: seq<bool>)
    requires |table| == 256 && |inUse| == 256
    ensures Filling(table, [], [], inUse, CRC_START)
  {
  }

  lemma RunIs(table: seq<word>, bs: int, accepted: seq<byte>, closed: seq<Closed>, pairs: seq<Pair>, ch: int, len: nat,
      combined: word)
    requires |table| == 256 && History(table, bs, accepted, closed, pairs, ch, len, combined)
    ensures RunOk(ch, len) && (ch < 256 && pairs != [] ==> Follows(pairs[|pairs| - 1], Pair(ch, len)))
  {
  }

  lemma MarksAre(table: seq<word>, block: seq<byte>, pairs: seq<Pair>, inUse: seq<bool>, crc: word)
    requires |table| == 256 && Filling(table, block, pairs, inUse, crc)
    ensures |inUse| == 256 && Runs(pairs) && (|block| > 0 <==> pairs != [])
    ensures block == PackRuns(pairs) && crc == CrcFrom(table, CRC_START, Text(pairs))
    ensures forall i :: 0 <= i < |block| ==> inUse[block[i]]
  {
    if pairs != [] {
      FirstPack(pairs);
    }
  }

  lemma PairIs(b0: seq<byte>, b: seq<byte>, p: Pair)
    requires 1 <= p.len <= 255
    requires b == if p.len == 1 then b0 + [p.ch] else if p.len == 2 then b0 + [p.ch] + [p.ch]
                  else if p.len == 3 then b0 + [p.ch] + [p.ch] + [p.ch]
                  else b0 + [p.ch] + [p.ch] + [p.ch] + [p.ch] + [p.len - 4]
    ensures b == b0 + PairBytes(p)
  {
  }

  lemma OneCrc(table: seq<word>, crc: word, c: byte)
    requires |table| == 256
    ensures CrcFrom(table, crc, Copies(c, 1)) == UpdateCrc(table, crc, c)
  {
    assert Copies(c, 1)[..0] == [] && CrcFrom(table, crc, []) == crc;
  }

  /** The bytes of a run go into the CRC one by one. */
  method RunCrc(table: seq<word>, crc0: word, c: byte, n: nat) returns (crc: word)
    requires |table| == 256
    ensures crc == CrcFrom(table, crc0, Copies(c, n))
  {
    hide UpdateCrc;
    crc := crc0;
    for i := 0 to n
      invariant crc == CrcFrom(table, crc0, Copies(c, i))
    {
      assert Copies(c, i + 1)[..i] == Copies(c, i);
      crc := UpdateCrc(table, crc, c);
    }
  }
}
