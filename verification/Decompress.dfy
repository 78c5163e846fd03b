/** `BZ2_bzDecompress`: the decoder fed through a bit buffer, the output handed out as far as there is room. */
module Decompress {
  import opened Base
  import opened Rotations
  import opened BurrowsWheeler
  import opened Counting
  import opened Bits
  import opened MoveToFront
  import opened Decoder
  import opened ReadBlock
  import opened RunLength
  import opened Streams
  import opened BlockReaders
  import InverseTransform
  import opened UnRle

  // ------------------------------------------------------------ the bit buffer

  /** The low `live` bits of the buffer are the bits taken from the input and not yet asked for. */
  ghost predicate Waiting(buff: int, live: int, pend: seq<bool>) {
    && 0 <= buff < 0x1_0000_0000 && 0 <= live <= 32 && |pend| == live
    && exists q: nat :: buff == q * Pow2(live) + Val(pend)
  }

  /** Taking `n` bits from the top of the pending ones. */
  lemma BitsOut(buff: int, live: int, pend: seq<bool>, n: nat)
    requires Waiting(buff, live, pend) && n <= live
    ensures buff / Pow2(live - n) % Pow2(n) == Val(pend[..n])
    ensures Waiting(buff, live - n, pend[n..])
  {
    var q: nat :| buff == q * Pow2(live) + Val(pend);
    ValSplit(pend, n);
    ValBound(pend[..n]);
    ValBound(pend[n..]);
    Pow2Add(n, live - n);
    var (p, m, hi, lo) := (Pow2(live - n), Pow2(n), Val(pend[..n]), Val(pend[n..]));
    hide Val, Pow2;
    Regroup(q, m, p, hi, lo);
    QuotientIs(buff, q * m + hi, p, lo);
    QuotientIs(q * m + hi, q, m, hi);
    assert 0 <= q * m + hi by { Products(q, m); }
  }

  lemma Regroup(q: int, m: int, p: int, hi: int, lo: int)
    ensures q * (m * p) + (hi * p + lo) == (q * m + hi) * p + lo
  {
    assert (q * m + hi) * p == q * m * p + hi * p;
    assert q * m * p == q * (m * p);
  }

  lemma Products(a: nat, b: nat)
    ensures a * b >= 0
  {
  }

  /** A byte is shifted in; what leaves the 32 bits at the top was not pending. */
  lemma ByteIn(buff: int, live: int, pend: seq<bool>, c: byte)
    requires Waiting(buff, live, pend) && live <= 24
    ensures Waiting((buff * 256 + c) % 0x1_0000_0000, live + 8, pend + ToBits(c, 8))
  {
    hide *;
    var q := PendingPart(buff, live, pend);
    ByteGrows(pend, c);
    ByteRoom(live);
    ValBound(pend + ToBits(c, 8));
    Shifted(q, Pow2(live), Val(pend), c);
    assert buff * 256 + c == q * Pow2(live + 8) + Val(pend + ToBits(c, 8));
    var x := LowPart(q, Pow2(live + 8), Val(pend + ToBits(c, 8)), Pow2(24 - live));
    WaitingIs((buff * 256 + c) % 0x1_0000_0000, live + 8, pend + ToBits(c, 8), x);
  }

  lemma PendingPart(buff: int, live: int, pend: seq<bool>) returns (q: nat)
    requires Waiting(buff, live, pend)
    ensures 0 <= live == |pend| && buff == q * Pow2(live) + Val(pend)
  {
    q :| buff == q * Pow2(live) + Val(pend);
  }

  lemma ByteRoom(live: nat)
    requires live <= 24
    ensures Pow2(live + 8) == Pow2(live) * 256 && Pow2(live + 8) * Pow2(24 - live) == 0x1_0000_0000
  {
    Pow2Values();
    Pow2Add(live, 8);
    Pow2Add(live + 8, 24 - live);
  }

  lemma WaitingIs(buff: int, live: int, pend: seq<bool>, q: nat)
    requires 0 <= buff < 0x1_0000_0000 && 0 <= live <= 32 && |pend| == live && buff == q * Pow2(live) + Val(pend)
    ensures Waiting(buff, live, pend)
  {
  }

  lemma ByteGrows(pend: seq<bool>, c: byte)
    ensures Val(pend + ToBits(c, 8)) == Val(pend) * 256 + c
  {
    Pow2Values();
    ValAppend(pend, ToBits(c, 8));
    ValOfBits(c, 8);
  }

  /** Dropping a multiple of p * k keeps the part below p. */
  lemma LowPart(q: int, p: nat, v: nat, k: nat) returns (x: nat)
    requires p > 0 && v < p && p * k == 0x1_0000_0000
    ensures (q * p + v) % 0x1_0000_0000 == x * p + v
  {
    var (w, m) := (q * p + v, 0x1_0000_0000);
    var a, r := w / m, w % m;
    Regroup(a, k, p, 0, 0);
    assert a * (p * k) == (a * k) * p by { assert p * k == k * p; }
    Distribute(q, a * k, p);
    NotNegative(q - a * k, p, v, r);
    x := q - a * k;
  }

  lemma Shifted(q: int, m: int, v: int, c: int)
    ensures (q * m + v) * 256 + c == q * (m * 256) + (v * 256 + c)
  {
    assert q * m * 256 == q * (m * 256);
  }

  lemma Distribute(x: int, y: int, p: int)
    ensures (x - y) * p == x * p - y * p
  {
  }

  lemma NotNegative(x: int, p: int, v: int, r: int)
    requires 0 <= v < p && r == x * p + v && r >= 0
    ensures x >= 0
  {
    LeadingDigit(x, v, 0, 0, p);
  }

  lemma UnpackFirst(s: seq<byte>)
    requires s != []
    ensures Unpack(s) == ToBits(s[0], 8) + Unpack(s[1..])
  {
    UnpackAppend([s[0]], s[1..]);
    assert s == [s[0]] + s[1..];
    assert Unpack([s[0]]) == ToBits(s[0], 8) by { assert [s[0]][..0] == [] && [] + ToBits(s[0], 8) == ToBits(s[0], 8); }
  }

  // ------------------------------------------------------------ what a step means

  ghost function StageFor(h: Header, w: seq<byte>, o: OutState): (s: Stage)
    requires 1 <= h.bs <= 9 && 3 <= |w| && 1 <= o.used <= |w|
    ensures GoodStage(s) && s.Writing?
  {
    Writing(h, w, o.crc, o.ch, o.len, o.used - 1)
  }

  lemma StageRest(h: Header, w: seq<byte>, o: OutState)
    requires 1 <= h.bs <= 9 && 3 <= |w| && 1 <= o.used <= |w|
    ensures Remaining(StageFor(h, w, o)) == Rest(w, o)
  {
  }

  lemma WritingIs(table: seq<word>, h: Header, w: seq<byte>, o: OutState, combined: word, bits: seq<bool>)
    requires |table| == 256 && 1 <= h.bs <= 9 && 3 <= |w| && 1 <= o.used <= |w|
    ensures Ok(BlkHdr(h.bs, 0))
    ensures var crc := Finalise(CrcFrom(table, o.crc, Rest(w, o).text));
            Future(table, StageFor(h, w, o), combined, bits) ==
            if Rest(w, o).corrupt || crc != h.crc
                then Meaning(Rest(w, o).text, BZ_DATA_ERROR, if Rest(w, o).corrupt then |Rest(w, o).text| else 0)
            else var more := Future(table, Reading(BlkHdr(h.bs, 0)), Combine(combined, crc), bits);
                 Meaning(Rest(w, o).text + more.out, more.code, more.cut)
  {
    StageRest(h, w, o);
    hide Rest, Remaining, CrcFrom, Finalise, Combine, Run;
  }

  /** Part of a block given out: the rest means what was meant before, less what was given out. */
  lemma FutureGiven(table: seq<word>, h: Header, w: seq<byte>, o0: OutState, o: OutState, out: seq<byte>,
      combined: word, bits: seq<bool>)
    requires |table| == 256 && 1 <= h.bs <= 9 && GivenText(table, w, o0, o, out)
    ensures var more := Future(table, StageFor(h, w, o), combined, bits);
            var m := Future(table, StageFor(h, w, o0), combined, bits);
            && m == Meaning(out + more.out, more.code, m.cut) && more.cut == Min(m.cut, |more.out|)
            && (!Rest(w, o).corrupt || o.used == |w| - 1 ==> more.cut == m.cut)
            && (Rest(w, o).corrupt && (o.used <= |w| - 1 || o.len > 0) ==> more.cut > 0)
  {
    WritingIs(table, h, w, o0, combined, bits);
    WritingIs(table, h, w, o, combined, bits);
    CrcAppend(table, o0.crc, out, Rest(w, o).text);
    if Rest(w, o).corrupt && (o.used <= |w| - 1 || o.len > 0) { BrokenHasText(w, o); }
    assert o.used == |w| - 1 ==> !Rest(w, o).corrupt;
    hide Future, Rest, CrcFrom, Finalise, Combine;
    var (t, crc) := (Rest(w, o).text, Finalise(CrcFrom(table, o0.crc, out + Rest(w, o).text)));
    Assoc(out, t, Future(table, Reading(BlkHdr(h.bs, 0)), Combine(combined, crc), bits).out);
  }

  /** A block all given out. */
  lemma FutureBlockEnd(table: seq<word>, h: Header, w: seq<byte>, o: OutState, combined: word, bits: seq<bool>)
    requires |table| == 256 && 1 <= h.bs <= 9 && 3 <= |w| && o.used == |w| - 1 && o.len == 0
    ensures Ok(BlkHdr(h.bs, 0))
    ensures Future(table, StageFor(h, w, o), combined, bits) ==
            if Finalise(o.crc) != h.crc then Meaning([], BZ_DATA_ERROR, 0)
            else Future(table, Reading(BlkHdr(h.bs, 0)), Combine(combined, Finalise(o.crc)), bits)
  {
    WritingIs(table, h, w, o, combined, bits);
    assert Rest(w, o) == Spelling([], false) by { assert Copies(o.ch, 0) + [] == []; }
    hide Future, Rest, Finalise, Combine;
    var more := Future(table, Reading(BlkHdr(h.bs, 0)), Combine(combined, Finalise(o.crc)), bits);
    assert [] + more.out == more.out;
  }

  /** The bits for one label have come. */
  lemma LabelStep(d: Dec, bits: seq<bool>, more: seq<bool>)
    requires Ok(d) && !Stopped(d) && |bits| >= Need(d)
    ensures Val(bits[..Need(d)]) < Pow2(Need(d))
    ensures Run(d, bits + more) == Run(Take(d, Val(bits[..Need(d)])), bits[Need(d)..] + more)
  {
    hide *;
    var n := Need(d);
    Eat(d, bits[..n], bits[n..] + more);
    assert bits[..n] + (bits[n..] + more) == bits + more;
  }

  lemma SpelledAt(r: BlockReader, h: Header)
    requires r.Valid() && 0 <= h.origPtr < |r.l| && r.origPtr == h.origPtr
    ensures Yields(r, Spelled(h, r.l))
  {
    var w := Spelled(h, r.l);
    hide Spelled;
    forall k | 0 <= k < |w| ensures w[k] == r.ByteAt(k) {
      SpelledByte(r.l, r.t, h, k);
    }
  }

  lemma SpelledByte(l: seq<byte>, t: seq<int>, h: Header, k: nat)
    requires IsTVector(t, l) && IsPerm(t, |l|) && 0 <= h.origPtr < |l| && k < |l| + 2
    ensures Spelled(h, l)[k] == l[Follow(t, t[h.origPtr], k)]
  {
    hide TVector;
    InverseTransform.WalkAt(l, t, t[h.origPtr], |l| + 2, k);
  }

  // ------------------------------------------------------------ the stream object

  /**
   * `given` has been given out of what `m` meant, and `rest` is to come; a block that breaks off has bytes to come
   * yet.
   */
  ghost predicate Resumes(m: Meaning, given: seq<byte>, rest: Meaning, small: bool) {
    && m.out == given + rest.out && m.code == rest.code && rest.cut == Min(m.cut, |rest.out|)
    && (!small && m.cut > 0 ==> rest.cut > 0)
  }

  /**
   * The end of what `m` meant: the fast form has stored, but does not report, what it gave out of a block that breaks
   * off.
   */
  ghost predicate Stops(m: Meaning, given: seq<byte>, ret: Code, small: bool, lost: seq<byte>) {
    m.out == given + lost && m.code == ret && |lost| == if small then 0 else m.cut
  }

  lemma ResumesOn(m: Meaning, given: seq<byte>, m1: Meaning, more: seq<byte>, rest: Meaning, small: bool)
    requires Resumes(m, given, m1, small) && Resumes(m1, more, rest, small)
    ensures Resumes(m, given + more, rest, small)
  {
    Assoc(given, more, rest.out);
  }

  class Decompressor {
    const table: seq<word>
    const small: bool
    /** The caller's side: input not yet read, room for output, output so far. */
    var nextIn: seq<byte>
    var availOut: nat
    var output: seq<byte>
    /** The decoder's side. */
    var at: Dec
    var bsBuff: int
    var bsLive: int
    var o: OutState
    var reader: BlockReader
    var combined: word
    /** The bits behind `bsBuff`; the bytes of the block being given out; whether an error has been returned. */
    ghost var pend: seq<bool>
    ghost var w: seq<byte>
    ghost var spent: bool

    ghost predicate Giving()
      reads this, reader.tt, reader.ll16, reader.ll4, reader.cftab
    {
      && at.Output? && reader.small == small && reader.l == at.column && |w| == |at.column| + 2
      && Walking(reader, w, o) && (!small && o.used > |w| - 1 ==> o.len > 0)
    }

    ghost predicate Valid()
      reads this, reader.tt, reader.ll16, reader.ll4, reader.cftab
    {
      |table| == 256 && Ok(at) && Waiting(bsBuff, bsLive, pend) && (at.Output? ==> Giving()) && (at.Failed? ==> spent)
    }

    /** All the bits that have been handed over and not been consumed. */
    ghost function Bits(): seq<bool>
      reads this
    {
      pend + Unpack(nextIn)
    }

    /** What the stream means from here on, `more` being the bits that later calls will bring. */
    ghost function Means(more: seq<bool>): Meaning
      requires Valid()
      reads this, reader.tt, reader.ll16, reader.ll4, reader.cftab
    {
      if at.Output? then GivingBounds(this); Future(table, StageFor(at.h, w, o), combined, Bits() + more)
      else Future(table, Reading(at), combined, Bits() + more)
    }

    /** `BZ2_bzDecompressInit`. */
    constructor (table: seq<word>, small: bool)
      requires |table| == 256
      ensures Valid() && !spent && output == [] && nextIn == [] && this.table == table && this.small == small
      ensures Bits() == [] && at == Magic(0) && combined == 0
      ensures fresh(reader.tt) && fresh(reader.ll16) && fresh(reader.ll4) && fresh(reader.cftab)
    {
      this.table, this.small := table, small;
      nextIn, availOut, output := [], 0, [];
      at, bsBuff, bsLive, combined := Magic(0), 0, 0, 0;
      o := OutState(0, 0, 1, 0, 0, 0);
      reader := new BlockReader(small, 1, [0], 0);
      pend, w, spent := [], [], false;
      NothingPending();
    }

    /** GET_BITS: bytes are taken from the input until the buffer has `n` bits; without input the call is suspended. */
    method GetBits(n: nat) returns (ok: bool, v: int)
      requires Waiting(bsBuff, bsLive, pend) && 1 <= n <= 20
      modifies `bsBuff, `bsLive, `nextIn, `pend
      ensures Waiting(bsBuff, bsLive, pend)
      ensures ok ==> n <= |old(Bits())| && v == Val(old(Bits())[..n]) && Bits() == old(Bits())[n..]
      ensures !ok ==> nextIn == [] && Bits() == old(Bits()) && |Bits()| < n
    {
      ghost var all := Bits();
      while bsLive < n
        modifies `bsBuff, `bsLive, `nextIn, `pend
        invariant Waiting(bsBuff, bsLive, pend) && Bits() == all
        decreases |nextIn|
      {
        PendingLength(bsBuff, bsLive, pend);
        if |nextIn| == 0 { return false, 0; }
        ByteIn(bsBuff, bsLive, pend, nextIn[0]);
        UnpackFirst(nextIn);
        hide Waiting, ToBits, Unpack;
        ghost var pend0, rest := pend, Unpack(nextIn[1..]);
        bsBuff := (bsBuff * 256 + nextIn[0]) % 0x1_0000_0000;
        bsLive := bsLive + 8;
        pend := pend + ToBits(nextIn[0], 8);
        Assoc(pend0, ToBits(nextIn[0], 8), rest);
        nextIn := nextIn[1..];
      }
      PendingLength(bsBuff, bsLive, pend);
      BitsOut(bsBuff, bsLive, pend, n);
      hide Waiting, Val, Unpack, Pow2;
      assert all[..n] == pend[..n] && all[n..] == pend[n..] + Unpack(nextIn);
      v := bsBuff / Pow2(bsLive - n) % Pow2(n);
      bsLive := bsLive - n;
      pend := pend[n..];
      ok := true;
    }

    /** The caller offers more input and sets the room for output. */
    method Give(input: seq<byte>, room: nat, ghost more: seq<bool>)
      requires Valid()
      modifies `nextIn, `availOut
      ensures Valid() && availOut == room && Bits() == old(Bits()) + Unpack(input)
      ensures Means(more) == old(Means(Unpack(input) + more))
    {
      UnpackAppend(nextIn, input);
      Assoc(pend, Unpack(nextIn), Unpack(input));
      Assoc(pend + Unpack(nextIn), Unpack(input), more);
      hide Walking, Waiting, Ok, Unpack, Future, StageFor;
      nextIn, availOut := nextIn + input, room;
    }

    /** The labels of `BZ2_decompress`, one after another, as long as the bits last. */
    method DecodeLabels(ghost more: seq<bool>)
      requires Waiting(bsBuff, bsLive, pend) && Ok(at) && !Stopped(at)
      modifies `bsBuff, `bsLive, `nextIn, `pend, `at
      ensures Waiting(bsBuff, bsLive, pend) && Ok(at)
      ensures Run(at, Bits() + more) == Run(old(at), old(Bits()) + more)
      ensures if Stopped(at) then |Bits()| < |old(Bits())| else nextIn == [] && |Bits()| < Need(at)
      ensures |old(Bits())| < Need(old(at)) ==> at == old(at)
    {
      hide Run, Take, Ok, Need, Waiting, Val, Unpack, Stopped, Pow2;
      ghost var d0, all := at, Bits();
      while true
        modifies `bsBuff, `bsLive, `nextIn, `pend, `at
        invariant Waiting(bsBuff, bsLive, pend) && Ok(at) && Run(at, Bits() + more) == Run(d0, all + more)
        invariant |Bits()| <= |all| && if Stopped(at) then |Bits()| < |all| else true
        invariant |all| < Need(d0) ==> at == d0
        decreases |Bits()|
      {
        if Stopped(at) { return; }
        NeedsSome(at);
        ghost var bits := Bits();
        var ok, v := GetBits(Need(at));
        if !ok { return; }
        LabelStep(at, bits, more);
        at := Take(at, v);
      }
    }

    /** The block is complete: the tables of its inverse transform are set up and the first byte is fetched. */
    method StartOutput()
      requires |table| == 256 && at.Output? && Ok(at) && Waiting(bsBuff, bsLive, pend)
      modifies `reader, `o, `w
      ensures Valid()
      ensures 1 <= at.h.bs <= 9 && 3 <= |w| && 1 <= o.used <= |w|
              && StageFor(at.h, w, o) == StartWriting(at.h, at.column)
    {
      hide Walking, Ok, Waiting, StageFor, StartWriting, Spelled;
      reader, o, w := FirstByteOf(small, at);
    }

    /**
     * `BZ2_decompress`: on to the next block's output, to the end of the stream, to an error, or to the end of the
     * input.
     */
    method Decode(ghost more: seq<bool>) returns (ret: Code)
      requires Valid() && !Stopped(at)
      modifies `bsBuff, `bsLive, `nextIn, `pend, `at, `reader, `o, `w, `spent
      ensures Valid() && Means(more) == old(Means(more))
      ensures if Stopped(at) then |Bits()| < |old(Bits())| else nextIn == [] && |Bits()| < Need(at)
      ensures ret == if at.Ended? then BZ_STREAM_END else if at.Failed? then at.code else BZ_OK
      ensures spent == (old(spent) || at.Failed?)
      ensures |old(Bits())| < Need(old(at)) ==> at == old(at) && ret == BZ_OK
    {
      hide Walking, Waiting, Ok, Run, Future, Need, StageFor, Unpack, StartWriting;
      ghost var d0, bits0 := at, Bits();
      DecodeLabels(more);
      FutureOfRun(table, d0, bits0 + more, at, Bits() + more, combined);
      match at
      case Output(h, column) =>
        OutputMeans(table, h, column, combined, Bits() + more);
        StartOutput();
        ret := BZ_OK;
      case Ended(_) => ret := BZ_STREAM_END;
      case Failed(code) =>
        spent := true;
        ret := code;
      case _ => ret := BZ_OK;
    }

    /**
     * The block under way is given out as far as there is room; `lost` is what the fast form stores but does not
     * report.
     */
    method GiveOut(ghost more: seq<bool>) returns (corrupt: bool, ghost lost: seq<byte>)
      requires Valid() && at.Output?
      modifies `o, `availOut, `output
      ensures Valid() && old(output) <= output && |output| + availOut == |old(output)| + old(availOut)
      ensures !corrupt ==> lost == [] && (availOut == 0 || (o.used == |w| - 1 && o.len == 0))
      ensures !corrupt ==> Resumes(old(Means(more)), output[|old(output)|..], Means(more), small)
      ensures !corrupt && o.used == |w| - 1 && o.len == 0 ==> old(Means(more)).cut == Means(more).cut
      ensures corrupt ==> Stops(old(Means(more)), output[|old(output)|..], BZ_DATA_ERROR, small, lost)
      ensures |lost| <= availOut
      ensures !corrupt && !small && !(o.used == |w| - 1 && o.len == 0) ==> Means(more).out != []
    {
      hide Walking, Waiting, Ok, Future, GivenText, StageFor, Unpack, Rest;
      ghost var o0, out0 := o, output;
      GivingBounds(this);
      lost := [];
      var o1, avail, out;
      if small {
        corrupt, o1, avail, out := UnRleSmall(reader, table, o, availOut, |at.column| + 1, w);
      } else {
        corrupt, o1, avail, out, lost := UnRleFast(reader, table, o, availOut, |at.column| + 1, w);
      }
      if corrupt {
        FutureCorrupt(table, at.h, w, o0, if small then out else lost, combined, Bits() + more);
        assert out + lost == if small then out else lost;
      } else {
        Bounds(reader, w, o1);
        FutureGiven(table, at.h, w, o0, o1, out, combined, Bits() + more);
        if o1.len > 0 { FutureGoesOn(table, at.h, w, o1, combined, Bits() + more); }
      }
      o, availOut, output := o1, avail, output + out;
      assert output[|out0|..] == out;
    }

    /** The block is all out: its CRC is compared and folded into the combined one. */
    method FinishBlock(ghost more: seq<bool>) returns (ok: bool)
      requires Valid() && at.Output? && o.used == |w| - 1 && o.len == 0
      modifies `at, `combined
      ensures Valid()
      ensures ok ==> at.BlkHdr? && Means(more) == old(Means(more))
      ensures !ok ==> old(Means(more)) == Meaning([], BZ_DATA_ERROR, 0)
    {
      hide Walking, Waiting, Ok, Future, StageFor, Unpack, Finalise, Combine;
      GivingBounds(this);
      FutureBlockEnd(table, at.h, w, o, combined, Bits() + more);
      var crc := Finalise(o.crc);
      if crc != at.h.crc { return false; }
      combined := Combine(combined, crc);
      at := BlkHdr(at.h.bs, 0);
      ok := true;
    }

    /** What has been given out since `out0`, and what is still to come, is what `m` says. */
    ghost predicate Keeps(m: Meaning, out0: seq<byte>, more: seq<bool>)
      reads this, reader.tt, reader.ll16, reader.ll4, reader.cftab
    {
      && Valid() && !spent && !at.Ended? && out0 <= output
      && Resumes(m, output[|out0|..], Means(more), small) && m.cut == Means(more).cut
    }

    /** What is known when a call returns: `m` is met, and the call stopped only for want of room or of input. */
    ghost predicate Returned(m: Meaning, out0: seq<byte>, more: seq<bool>, ret: Code, lost: seq<byte>)
      reads this, reader.tt, reader.ll16, reader.ll4, reader.cftab
    {
      && Valid() && out0 <= output && ret != BZ_SEQUENCE_ERROR && |lost| <= availOut
      && if ret == BZ_OK then !spent && !at.Ended? && Resumes(m, output[|out0|..], Means(more), small) && !CanGoOn()
          && lost == [] && (!small && at.Output? ==> Means(more).out != [])
         else Stops(m, output[|out0|..], ret, small, lost) && (ret == BZ_STREAM_END ==> at.Ended? && !spent)
    }

    /** There is room for output and a block to give out, or input and a label that waits for it. */
    ghost predicate CanGoOn()
      reads this
    {
      if at.Output? then availOut > 0 else Stopped(at) || nextIn != [] || |Bits()| >= Need(at)
    }

    /** One turn of the loop: the rest of a block, as far as there is room, and the decoder's next stretch. */
    method FirstHalf(ghost m: Meaning, ghost out0: seq<byte>, ghost more: seq<bool>)
        returns (done: bool, ret: Code, ghost lost: seq<byte>)
      requires at.Output? && Keeps(m, out0, more)
      modifies `o, `availOut, `output, `at, `combined, `spent
      ensures if done then Returned(m, out0, more, ret, lost) else Keeps(m, out0, more) && at.BlkHdr?
      ensures Bits() == old(Bits()) && |output| + availOut == |old(output)| + old(availOut)
    {
      hide Valid, Future, StageFor, Unpack, Means;
      ghost var before, m1 := output, Means(more);
      var corrupt;
      corrupt, lost := GiveOut(more);
      GivenMore(out0, before, output, m1.out, if corrupt then lost else Means(more).out);
      done, ret := true, BZ_OK;
      if corrupt {
        Spend();
        ret := BZ_DATA_ERROR;
      } else if o.used == |at.column| + 1 && o.len == 0 {
        WidthIs(this);
        var ok := FinishBlock(more);
        done := !ok;
        if !ok {
          Spend();
          assert output[|out0|..] + [] == output[|out0|..];
          ret := BZ_DATA_ERROR;
        }
      } else {
        WidthIs(this);
      }
    }

    method Spend()
      requires Valid()
      modifies `spent
      ensures Valid() && spent
    {
      hide Walking, Waiting, Ok;
      spent := true;
    }

    method SecondHalf(ghost m: Meaning, ghost out0: seq<byte>, ghost more: seq<bool>) returns (done: bool, ret: Code)
      requires !Stopped(at) && Keeps(m, out0, more)
      modifies `bsBuff, `bsLive, `nextIn, `pend, `at, `reader, `o, `w, `spent
      ensures if done then Returned(m, out0, more, ret, [])
              else Keeps(m, out0, more) && at.Output? && |Bits()| < |old(Bits())|
      ensures |old(Bits())| < Need(old(at)) ==> done && ret == BZ_OK
    {
      hide Valid, Future, StageFor, Unpack, Need, Ok;
      ret := Decode(more);
      EndMeans(this, more);
      assert output[|out0|..] + [] == output[|out0|..];
      done := !at.Output?;
      if ret == BZ_STREAM_END && combined != at.crc {
        Spend();
        ret := BZ_DATA_ERROR;
      }
    }

    /**
     * `BZ2_bzDecompress`. `more` stands for the bits that later calls will bring: whatever they are, what this call
     * gives out and what the stream means afterwards is together what the stream meant before. A call that returns
     * BZ_OK has used up the room or the input.
     */
    method BzDecompress(ghost more: seq<bool>) returns (ret: Code, ghost lost: seq<byte>)
      requires Valid() && !spent
      modifies this
      ensures Valid() && (ret == BZ_SEQUENCE_ERROR <==> old(at.Ended?))
      ensures ret == BZ_SEQUENCE_ERROR ==> output == old(output) && nextIn == old(nextIn)
      ensures |output| + availOut == |old(output)| + old(availOut)
      ensures ret != BZ_SEQUENCE_ERROR ==> Returned(old(Means(more)), old(output), more, ret, lost)
      ensures !old(Stopped(at)) && |old(Bits())| < old(Need(at)) ==> ret == BZ_OK && output == old(output)
    {
      lost := [];
      if at.Ended? { return BZ_SEQUENCE_ERROR, lost; }
      ghost var out0, m := output, Means(more);
      assert output[|out0|..] + Means(more).out == Means(more).out;
      assert !at.Failed?;
      ghost var stuck := !Stopped(at) && |Bits()| < Need(at);
      StuckIs(at);
      hide *;
      var done := false;
      while true
        invariant Keeps(m, out0, more) && lost == [] && !at.Ended? && !at.Failed?
        invariant |output| + availOut == |old(output)| + old(availOut)
        invariant stuck ==> !at.Output? && |Bits()| < Need(at) && output == out0
        decreases |Bits()|
      {
        if at.Output? {
          done, ret, lost := FirstHalf(m, out0, more);
          if done { return; }
        }
        done, ret := SecondHalf(m, out0, more);
        if done { return ret, []; }
        lost := [];
      }
    }
  }

  lemma StuckIs(at: Dec)
    ensures at.Output? || at.Ended? || at.Failed? <==> Stopped(at)
  {
  }

  lemma WidthIs(d: Decompressor)
    requires d.Valid() && d.at.Output?
    ensures |d.w| == |d.at.column| + 2
  {
    hide Walking, Waiting, Ok;
  }

  /** At the end of the stream, after an error: nothing more to come. */
  lemma EndMeans(d: Decompressor, more: seq<bool>)
    requires d.Valid()
    ensures d.at.Ended? ==>
            0 <= d.at.crc < 0x1_0000_0000
            && d.Means(more) == Meaning([], if d.at.crc == d.combined then BZ_STREAM_END else BZ_DATA_ERROR, 0)
    ensures d.at.Failed? ==>
            d.Means(more) == Meaning([], d.at.code, 0)
            && (d.at.code == BZ_DATA_ERROR || d.at.code == BZ_DATA_ERROR_MAGIC || d.at.code == Unspecified)
  {
    hide Walking, Waiting, Future, Unpack;
    match d.at
    case Ended(crc) => EndedMeans(d.table, crc, d.combined, d.Bits() + more);
    case Failed(code) => FailedMeans(d.table, code, d.combined, d.Bits() + more);
    case _ =>
  }

  lemma FailedMeans(table: seq<word>, code: Code, combined: word, bits: seq<bool>)
    requires |table| == 256 && Ok(Failed(code))
    ensures Future(table, Reading(Failed(code)), combined, bits) == Meaning([], code, 0)
  {
    RunStopped(Failed(code), bits);
    hide Run;
  }

  lemma GivenMore(out0: seq<byte>, before: seq<byte>, after: seq<byte>, rest0: seq<byte>, rest: seq<byte>)
    requires out0 <= before <= after && rest0 == after[|before|..] + rest
    ensures before[|out0|..] + rest0 == after[|out0|..] + rest
  {
  }

  lemma EndedMeans(table: seq<word>, crc: word, combined: word, bits: seq<bool>)
    requires |table| == 256
    ensures Ok(Ended(crc))
    ensures Future(table, Reading(Ended(crc)), combined, bits)
            == Meaning([], if crc == combined then BZ_STREAM_END else BZ_DATA_ERROR, 0)
  {
    RunStopped(Ended(crc), bits);
    hide Run;
  }

  lemma OutputMeans(table: seq<word>, h: Header, column: seq<byte>, combined: word, bits: seq<bool>)
    requires |table| == 256 && Ok(Output(h, column))
    ensures Future(table, Reading(Output(h, column)), combined, bits)
            == Future(table, StartWriting(h, column), combined, bits)
  {
    RunStopped(Output(h, column), bits);
    hide Run, StartWriting, Ok;
  }

  lemma FutureCorrupt(table: seq<word>, h: Header, w: seq<byte>, o: OutState, text: seq<byte>, combined: word,
      bits: seq<bool>)
    requires |table| == 256 && 1 <= h.bs <= 9 && 3 <= |w| && 1 <= o.used <= |w| && Rest(w, o) == Spelling(text, true)
    ensures Future(table, StageFor(h, w, o), combined, bits) == Meaning(text, BZ_DATA_ERROR, |text|)
  {
    WritingIs(table, h, w, o, combined, bits);
    hide Future, Rest;
  }

  /** A run that is not finished gives out bytes. */
  lemma FutureGoesOn(table: seq<word>, h: Header, w: seq<byte>, o: OutState, combined: word, bits: seq<bool>)
    requires |table| == 256 && 1 <= h.bs <= 9 && 3 <= |w| && 1 <= o.used <= |w| && o.len > 0
    ensures Future(table, StageFor(h, w, o), combined, bits).out != []
  {
    WritingIs(table, h, w, o, combined, bits);
    hide Future;
  }

  method FirstByteOf(small: bool, d: Dec) returns (r: BlockReader, o: OutState, ghost w: seq<byte>)
    requires d.Output? && Ok(d)
    ensures fresh(r.tt) && fresh(r.ll16) && fresh(r.ll4) && fresh(r.cftab)
    ensures r.small == small && r.l == d.column && |w| == |d.column| + 2 && Walking(r, w, o)
    ensures 1 <= d.h.bs <= 9 && 3 <= |w| && o.used == 1 && StageFor(d.h, w, o) == StartWriting(d.h, d.column)
  {
    hide *;
    OutputRanges(d);
    r := new BlockReader(small, 100000 * d.h.bs, d.column, d.h.origPtr);
    w := Spelled(d.h, d.column);
    SpelledAt(r, d.h);
    var tPos := r.Start();
    var corrupt, k0, tPos1 := r.Get(tPos, 0);
    o := OutState(0, 0, 1, k0, tPos1, CRC_START);
    FirstWalking(r, w, o, d.h);
  }

  lemma FirstWalking(r: BlockReader, w: seq<byte>, o: OutState, h: Header)
    requires Yields(r, w) && o.used == 1 && r.At(o.tPos, 1) && o.k0 == r.ByteAt(0) as int
    requires 0 <= h.origPtr < |r.l| && w == Spelled(h, r.l) && 1 <= h.bs <= 9 && Ok(Output(h, r.l))
    requires o == OutState(0, 0, 1, o.k0, o.tPos, CRC_START)
    ensures Walking(r, w, o) && |w| == |r.l| + 2 && StageFor(h, w, o) == StartWriting(h, r.l)
  {
    hide IsTVector, IsPerm, Spelled, Ok;
    assert w[0] == r.ByteAt(0);
  }

  lemma OutputRanges(d: Dec)
    requires d.Output? && Ok(d)
    ensures 1 <= d.h.bs <= 9 && 0 <= d.h.origPtr < |d.column| <= 100000 * d.h.bs <= 900000
  {
  }

  lemma NothingPending()
    ensures Waiting(0, 0, []) && Unpack([]) == []
  {
    assert Val([]) == 0 && Pow2(0) == 1;
    assert 0 == 0 * Pow2(0) + Val([]);
  }

  lemma PendingLength(buff: int, live: int, pend: seq<bool>)
    requires Waiting(buff, live, pend)
    ensures 0 <= live == |pend|
  {
  }

  lemma GivingBounds(d: Decompressor)
    requires d.Valid() && d.at.Output?
    ensures 1 <= d.at.h.bs <= 9 && 3 <= |d.w| && 1 <= d.o.used <= |d.w|
  {
    hide Walking, Waiting;
    Bounds(d.reader, d.w, d.o);
  }

  // ------------------------------------------------------------ any way of splitting the work over calls

  function Flatten(pieces: seq<seq<byte>>): seq<byte> {
    if pieces == [] then [] else pieces[0] + Flatten(pieces[1..])
  }

  lemma FlattenNext(pieces: seq<seq<byte>>, i: nat)
    requires i < |pieces|
    ensures Unpack(Flatten(pieces[i..])) == Unpack(pieces[i]) + Unpack(Flatten(pieces[i + 1..]))
    ensures Unpack(Flatten(pieces[|pieces|..])) == []
  {
    assert pieces[i..][1..] == pieces[i + 1..];
    UnpackAppend(pieces[i], Flatten(pieces[i + 1..]));
  }

  /** What a whole input means to a fresh decompressor. */
  ghost function WholeMeaning(table: seq<word>, input: seq<byte>): Meaning
    requires |table| == 256
  {
    Future(table, Reading(Magic(0)), 0, Unpack(input))
  }

  /** The stream has a block that breaks off inside a run: four equal bytes at its end, and no count after them. */
  ghost predicate BreaksOff(table: seq<word>, input: seq<byte>)
    requires |table| == 256
  {
    WholeMeaning(table, input).cut > 0
  }

  /**
   * Resumability. The input comes in any pieces, the room in any portions, one of each per call, until a call returns
   * something other than BZ_OK. Then the bytes given out and the return code are those of the whole input at once,
   * however it was split, but for what the fast form stores without reporting it (`lost`) in the very call that finds a
   * block broken off inside a run: exactly on such streams something is lost, namely all that the last call, which
   * found `before` given out, had stored of that block. If all calls return BZ_OK, the input was no whole stream or
   * the last call ran out of room (`left`).
   */
  method DecompressInPieces(table: seq<word>, small: bool, pieces: seq<seq<byte>>, rooms: seq<nat>)
    returns (out: seq<byte>, ret: Code, left: nat, before: seq<byte>, ghost lost: seq<byte>)
    requires |table| == 256 && |rooms| == |pieces| && pieces != []
    ensures ret != BZ_OK ==>
            WholeMeaning(table, Flatten(pieces)).out == out + lost && WholeMeaning(table, Flatten(pieces)).code == ret
    ensures ret != BZ_OK ==> (lost == [] <==> small || !BreaksOff(table, Flatten(pieces)))
    ensures ret != BZ_OK ==> |lost| <= left
    ensures ret != BZ_OK && lost != [] ==>
            before <= out && |lost| == Min(WholeMeaning(table, Flatten(pieces)).cut, |out + lost| - |before|)
    ensures ret == BZ_OK ==> lost == [] && out <= WholeMeaning(table, Flatten(pieces)).out
    ensures ret == BZ_OK ==> left == 0 || WholeMeaning(table, Flatten(pieces)).code == BZ_OK
    ensures ret == BZ_OK ==> left + |out| >= rooms[|rooms| - 1]
  {
    var d := new Decompressor(table, small);
    ghost var m := WholeMeaning(table, Flatten(pieces));
    StartMeans(d, Unpack(Flatten(pieces)));
    BreaksOffIs(table, Flatten(pieces));
    hide *;
    assert pieces[0..] == pieces;
    ret, lost, left, before := BZ_OK, [], 0, [];
    for i := 0 to |pieces|
      invariant i > 0 ==> !d.CanGoOn() && left == d.availOut && left + |d.output| >= rooms[i - 1]
      invariant Underway(d, m, Unpack(Flatten(pieces[i..]))) && lost == [] && ret == BZ_OK
      invariant d.small == small
    {
      FlattenNext(pieces, i);
      before := d.output;
      ret, lost := OnePiece(d, pieces[i], rooms[i], m, Unpack(Flatten(pieces[i + 1..])));
      left := d.availOut;
      if ret != BZ_OK {
        StopsAfterIs(m, before, d.output, ret, small, lost);
        return d.output, ret, left, before, lost;
      }
    }
    UnderwayIs(d, m, Unpack(Flatten(pieces[|pieces|..])));
    FlattenNext(pieces, 0);
    StarvedMeans(d, m);
    out := d.output;
  }

  lemma BreaksOffIs(table: seq<word>, input: seq<byte>)
    requires |table| == 256
    ensures BreaksOff(table, input) <==> WholeMeaning(table, input).cut > 0
  {
  }

  lemma StopsAfterIs(m: Meaning, before: seq<byte>, out: seq<byte>, ret: Code, small: bool, lost: seq<byte>)
    requires StopsAfter(m, before, out, ret, small, lost)
    ensures m.out == out + lost && m.code == ret && (lost == [] <==> small || m.cut == 0)
    ensures lost != [] ==> before <= out && |lost| == Min(m.cut, |out + lost| - |before|)
  {
  }

  /** The fast form goes on with a block in the next call only if there are bytes of it to give out. */
  ghost predicate KnowsMore(d: Decompressor, more: seq<bool>)
    requires d.Valid()
    reads d, d.reader.tt, d.reader.ll16, d.reader.ll4, d.reader.cftab
  {
    !d.small && d.at.Output? ==> d.Means(more).out != []
  }

  /** One piece of input, one portion of room, one call. */
  method OnePiece(d: Decompressor, piece: seq<byte>, room: nat, ghost m: Meaning, ghost more: seq<bool>)
      returns (ret: Code, ghost lost: seq<byte>)
    requires Underway(d, m, Unpack(piece) + more)
    modifies d
    ensures d.availOut + |d.output| == old(|d.output|) + room && |lost| <= d.availOut && old(d.output) <= d.output
    ensures piece == [] && !old(d.at.Output?) && !old(d.CanGoOn()) ==> ret == BZ_OK && |d.output| == old(|d.output|)
    ensures if ret == BZ_OK then Underway(d, m, more) && lost == [] && !d.CanGoOn() && KnowsMore(d, more)
            else StopsAfter(m, old(d.output), d.output, ret, d.small, lost)
                 && (ret == BZ_STREAM_END ==> d.Valid() && d.at.Ended? && !d.spent)
  {
    hide *;
    UnderwayIs(d, m, Unpack(piece) + more);
    StuckFor(d);
    NothingAdded(d.Bits(), piece);
    d.Give(piece, room, more);
    ghost var m1, out1 := d.Means(more), d.output;
    ret, lost := d.BzDecompress(more);
    AfterCall(d, m, m1, out1, more, ret, lost);
  }

  lemma StuckFor(d: Decompressor)
    ensures !d.at.Output? && !d.CanGoOn() ==> !Stopped(d.at) && |d.Bits()| < Need(d.at)
  {
  }

  lemma NothingAdded(bits: seq<bool>, piece: seq<byte>)
    ensures piece == [] ==> bits + Unpack(piece) == bits
  {
    assert Unpack([]) == [];
  }

  /**
   * The whole output is `out` and `lost`; the last call, which began at `before`, lost its part of a block that breaks
   * off.
   */
  ghost predicate StopsAfter(m: Meaning, before: seq<byte>, out: seq<byte>, ret: Code, small: bool, lost: seq<byte>) {
    && m.out == out + lost && m.code == ret && before <= out
    && |lost| == (if small then 0 else Min(m.cut, |m.out| - |before|)) && (lost == [] <==> small || m.cut == 0)
  }

  /** Between two calls: what has been given out and what is to come is what the whole input means. */
  ghost predicate Underway(d: Decompressor, m: Meaning, more: seq<bool>)
    reads d, d.reader.tt, d.reader.ll16, d.reader.ll4, d.reader.cftab
  {
    d.Valid() && !d.spent && !d.at.Ended? && Resumes(m, d.output, d.Means(more), d.small)
  }

  lemma UnderwayIs(d: Decompressor, m: Meaning, more: seq<bool>)
    requires Underway(d, m, more)
    ensures d.Valid() && !d.spent && !d.at.Ended? && Resumes(m, d.output, d.Means(more), d.small)
    ensures d.output <= m.out && d.Means(more).cut <= m.cut
  {
    hide Ok, Waiting, Walking, Future, Unpack, StageFor;
  }

  /** A decoder that waits for bits, and gets no more: the meaning ends there. */
  lemma StarvedMeans(d: Decompressor, m: Meaning)
    requires Underway(d, m, []) && !d.CanGoOn()
    ensures d.availOut == 0 || m.code == BZ_OK
  {
    if !d.at.Output? {
      hide Waiting, Walking, Unpack, StageFor;
      assert d.Bits() + [] == d.Bits();
      assert Run(d.at, d.Bits()) == (d.at, d.Bits());
    }
  }

  lemma StartMeans(d: Decompressor, bits: seq<bool>)
    requires d.Valid() && !d.spent && d.at == Magic(0) && d.combined == 0 && d.Bits() == [] && d.output == []
    ensures Underway(d, Future(d.table, Reading(Magic(0)), 0, bits), bits)
  {
    hide Ok, Waiting, Walking, Future, Unpack, StageFor;
    assert [] + bits == bits;
    assert [] + d.Means(bits).out == d.Means(bits).out;
  }

  lemma AfterCall(d: Decompressor, m: Meaning, m1: Meaning, out1: seq<byte>, more: seq<bool>, ret: Code,
      lost: seq<byte>)
    requires Resumes(m, out1, m1, d.small) && d.Returned(m1, out1, more, ret, lost)
    ensures ret == BZ_OK ==> Underway(d, m, more) && lost == [] && !d.CanGoOn() && KnowsMore(d, more)
    ensures ret != BZ_OK ==> StopsAfter(m, out1, d.output, ret, d.small, lost)
    ensures (ret == BZ_STREAM_END ==> d.Valid() && d.at.Ended? && !d.spent) && out1 <= d.output
    ensures |lost| <= d.availOut
  {
    hide Ok, Waiting, Walking, Future, Unpack, StageFor;
    if ret == BZ_OK {
      ResumesOn(m, out1, m1, d.output[|out1|..], d.Means(more), d.small);
    } else {
      Assoc(out1, d.output[|out1|..], lost);
    }
    assert out1 + d.output[|out1|..] == d.output;
  }
}
