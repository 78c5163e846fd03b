/**
 * The client of the library: `bz_strm`, which hands chunks of a file to the compressor or the decompressor and writes
 * what comes out to the stream below, and the two loops over a file that use it.
 */
module BzStreams {
  import opened Base
  import opened Bits
  import opened MoveToFront
  import opened RunLength
  import opened Streams
  import opened Compress
  import opened RoundTrip
  import opened Decoder
  import opened UnRle
  import opened Decompress
  import opened BrokenOff

  /** The size of the output buffer. */
  const CHUNK: nat := 0x40000

  /** How much of a file is read at once. */
  const READ: nat := 4096

  lemma ChunkIs()
    ensures CHUNK == 0x40000
  {
  }

  /** So many bytes fill buffers to the end. */
  ghost predicate Even(n: int) {
    n % CHUNK == 0
  }

  lemma EvenMore(n: nat, r: nat)
    requires Even(n) && r <= CHUNK
    ensures Even(n + r) <==> r == 0 || r == CHUNK
  {
    var (m, k) := (CHUNK, n / CHUNK);
    if r < m { QuotientIs(m * k + r, k, m, r); } else { QuotientIs(m * k + r, k + 1, m, 0); }
  }

  // ------------------------------------------------------------ encoding

  /** What has been taken in and what is on offer. */
  ghost predicate Holds(c: Compressor, all: seq<byte>)
    reads c
  {
    c.accepted + c.nextIn == all
  }

  ghost predicate Extends(a: seq<byte>, b: seq<byte>) {
    a <= b
  }

  lemma ExtendsOn(a: seq<byte>, b: seq<byte>, c: seq<byte>)
    requires Extends(a, b) && Extends(b, c)
    ensures Extends(a, c)
  {
  }

  /** Between two writes of the encoder everything handed over has been taken in. */
  ghost predicate Encoding(c: Compressor, sofar: seq<byte>)
    reads c, c.sink, c.inUse
  {
    c.Valid() && c.mode == Running && c.nextIn == [] && c.accepted == sofar
  }

  /**
   * In a write: `n` bytes have come out in whole buffers; after the first there is no input without bytes to copy out.
   */
  ghost predicate Writing(c: Compressor, all: seq<byte>, out0: seq<byte>, n: nat)
    reads c, c.sink, c.inUse
  {
    && c.Valid() && c.mode == Running && Holds(c, all) && Extends(out0, c.output) && Even(n)
    && |c.output| == |out0| + n && (if n == 0 then c.nextIn != [] else c.Pending() > 0 || c.nextIn == [])
  }

  /**
   * `bz_strm::write` of the encoder, of a chunk that is not empty. All of it is taken in. The loop calls the library
   * once more whenever the buffer has been filled: if that leaves nothing to do, the call answers an error, and so
   * does the write; just then the bytes that came out fill whole buffers.
   */
  method WriteRun(c: Compressor, buf: seq<byte>, ghost sofar: seq<byte>) returns (ret: int)
    requires Encoding(c, sofar) && buf != []
    modifies c, c.sink, c.inUse
    ensures Encoding(c, sofar + buf) && Extends(old(c.output), c.output) && |old(c.output)| <= |c.output|
    ensures var n := |c.output| - |old(c.output)|;
            (ret == -1 <==> n > 0 && Even(n)) && (ret == n || ret == -1) && (ret == -1 ==> c.Pending() == 0)
  {
    hide *;
    ghost var out0, all := c.output, sofar + buf;
    EncodingIs(c, sofar);
    c.Offer(buf, CHUNK);
    ret := 0;
    WritingStarts(c, all, out0, sofar, buf);
    var stop, failed := false, false;
    while !stop
      modifies c, c.sink, c.inUse
      invariant ret >= 0 && if stop then Written(c, all, out0, ret, failed) else Writing(c, all, out0, ret)
      decreases !stop, |c.nextIn|, c.Pending()
    {
      WritingHas(c, all, out0, ret);
      ret, stop, failed := RunTurn(c, ret, all, out0);
    }
    WrittenHas(c, all, out0, ret, failed);
    if failed { ret := -1; }
  }

  /** A write has ended: all is taken in, and it fails just when the bytes fill buffers to the end. */
  ghost predicate Written(c: Compressor, all: seq<byte>, out0: seq<byte>, n: nat, failed: bool)
    reads c, c.sink, c.inUse
  {
    && Encoding(c, all) && Extends(out0, c.output) && |c.output| == |out0| + n
    && (failed <==> n > 0 && Even(n)) && (failed ==> c.Pending() == 0)
  }

  lemma WrittenHas(c: Compressor, all: seq<byte>, out0: seq<byte>, n: nat, failed: bool)
    requires Written(c, all, out0, n, failed)
    ensures Encoding(c, all) && Extends(out0, c.output) && |c.output| == |out0| + n
    ensures (failed <==> n > 0 && Even(n)) && (failed ==> c.Pending() == 0)
  {
  }

  lemma WrittenIs(c: Compressor, all: seq<byte>, out0: seq<byte>, n: nat, failed: bool)
    requires c.Valid() && c.mode == Running && c.nextIn == [] && Holds(c, all)
    requires Extends(out0, c.output) && |c.output| == |out0| + n
    requires (failed <==> n > 0 && Even(n)) && (failed ==> c.Pending() == 0)
    ensures Written(c, all, out0, n, failed)
  {
    assert c.accepted + [] == c.accepted;
    hide Compressor.Valid;
  }

  /** One turn of the loop: the buffer is emptied, filled by the library, and written on. */
  method RunTurn(c: Compressor, n0: nat, ghost all: seq<byte>, ghost out0: seq<byte>)
      returns (n: nat, stop: bool, failed: bool)
    requires Writing(c, all, out0, n0)
    modifies c, c.sink, c.inUse
    ensures if stop then Written(c, all, out0, n, failed) else Writing(c, all, out0, n)
    ensures !stop ==>
              |c.nextIn| < |old(c.nextIn)| || (|c.nextIn| == |old(c.nextIn)| && c.Pending() < old(c.Pending()))
  {
    hide *;
    ChunkIs();
    WritingHas(c, all, out0, n0);
    ghost var out1 := c.output;
    var code := OneRun(c, all);
    ExtendsOn(out0, out1, c.output);
    EvenMore(n0, CHUNK - c.availOut);
    failed := code == ParamError;
    n := if failed then n0 else n0 + (CHUNK - c.availOut);
    stop := failed || c.availOut != 0;
    if stop {
      WrittenIs(c, all, out0, n, failed);
    } else {
      WritingIs(c, all, out0, n);
    }
  }

  /** One call of the library with an empty buffer, the input being where the last call left it. */
  method OneRun(c: Compressor, ghost all: seq<byte>) returns (code: Answer)
    requires c.Valid() && c.mode == Running && Holds(c, all)
    modifies c, c.sink, c.inUse
    ensures c.Valid() && c.mode == Running && Holds(c, all) && Extends(old(c.output), c.output)
    ensures |c.output| + c.availOut == |old(c.output)| + CHUNK && |old(c.output)| <= |c.output|
            && |c.nextIn| <= |old(c.nextIn)|
    ensures (c.nextIn == [] || c.availOut == 0) && (c.Pending() > 0 || c.nextIn == [])
    ensures (c.availOut > 0 ==> c.Pending() == 0) && (code == BZ_RUN_OK || code == ParamError)
    ensures code == ParamError <==> old(c.nextIn) == [] && old(c.Pending()) == 0
    ensures code == ParamError ==> |c.output| == |old(c.output)| && c.nextIn == [] && c.Pending() == 0
    ensures old(c.Pending()) > 0 ==> |c.output| > |old(c.output)|
    ensures |c.nextIn| == |old(c.nextIn)| && code == BZ_RUN_OK ==> c.Pending() < old(c.Pending())
  {
    hide *;
    ChunkIs();
    HoldsMeans(c, all);
    ghost var acc0, rest, out0 := c.accepted, c.nextIn, c.output;
    c.Offer([], CHUNK);
    assert rest + [] == rest;
    InOrderIs(c, BZ_RUN);
    code := c.BzCompress(BZ_RUN);
    HoldsStill(c, all, rest, acc0, out0);
    PendingBytes(c);
  }

  lemma HoldsMeans(c: Compressor, all: seq<byte>)
    ensures Holds(c, all) <==> c.accepted + c.nextIn == all
  {
  }

  lemma HoldsStill(c: Compressor, all: seq<byte>, rest: seq<byte>, acc0: seq<byte>, out0: seq<byte>)
    requires Took(rest, acc0, c.nextIn, c.accepted) && acc0 + rest == all && out0 <= c.output
    ensures Holds(c, all) && |c.nextIn| <= |rest| && Extends(out0, c.output) && |out0| <= |c.output|
  {
    TookKeeps(rest, acc0, c.nextIn, c.accepted);
  }

  lemma EncodingIs(c: Compressor, sofar: seq<byte>)
    requires Encoding(c, sofar)
    ensures c.Valid() && c.mode == Running && c.nextIn == [] && c.accepted == sofar
  {
  }

  lemma WritingStarts(c: Compressor, all: seq<byte>, out0: seq<byte>, sofar: seq<byte>, buf: seq<byte>)
    requires c.Valid() && c.mode == Running && c.accepted == sofar && c.nextIn == [] + buf && c.output == out0
    requires buf != [] && all == sofar + buf
    ensures Writing(c, all, out0, 0)
  {
    assert [] + buf == buf && Even(0);
  }

  lemma WritingHas(c: Compressor, all: seq<byte>, out0: seq<byte>, n: nat)
    requires Writing(c, all, out0, n)
    ensures c.Valid() && c.mode == Running && Holds(c, all) && Extends(out0, c.output) && c.Pending() >= 0
    ensures |c.output| == |out0| + n && Even(n) && if n == 0 then c.nextIn != [] else c.Pending() > 0 || c.nextIn == []
  {
    PendingBytes(c);
    hide Compressor.Valid;
  }

  lemma WritingIs(c: Compressor, all: seq<byte>, out0: seq<byte>, n: nat)
    requires c.Valid() && c.mode == Running && Holds(c, all) && Extends(out0, c.output) && n > 0 && Even(n)
    requires |c.output| == |out0| + n && (c.Pending() > 0 || c.nextIn == [])
    ensures Writing(c, all, out0, n)
  {
    hide Compressor.Valid;
  }

  // ------------------------------------------------------------ the end of encoding

  /** In the write that finishes: whole buffers have come out, and the stream has ended or goes on towards its end. */
  ghost predicate Ending(c: Compressor, all: seq<byte>, out0: seq<byte>, n: nat)
    reads c, c.sink, c.inUse
  {
    && c.Valid() && c.nextIn == [] && c.accepted == all && Extends(out0, c.output) && |c.output| == |out0| + n
        && Even(n)
    && if c.mode == Idle then n > 0 else c.MayFinish()
  }

  /** The stream has ended; the write fails just when its bytes fill buffers to the end. */
  ghost predicate Closed(c: Compressor, all: seq<byte>, out0: seq<byte>, n: nat, failed: bool)
    reads c, c.sink, c.inUse
  {
    && c.Valid() && c.mode == Idle && c.accepted == all && Extends(out0, c.output) && |c.output| == |out0| + n && n > 0
    && (failed <==> Even(n))
  }

  lemma EndingStarts(c: Compressor, all: seq<byte>)
    requires Encoding(c, all)
    ensures Ending(c, all, c.output, 0)
  {
    MayFinishIs(c);
    hide Compressor.Valid;
  }

  lemma EndingHas(c: Compressor, all: seq<byte>, out0: seq<byte>, n: nat)
    requires Ending(c, all, out0, n)
    ensures c.Valid() && c.nextIn == [] && c.accepted == all && Extends(out0, c.output)
    ensures |c.output| == |out0| + n && Even(n) && c.Pending() >= 0
    ensures if c.mode == Idle then n > 0 else c.MayFinish()
  {
    PendingBytes(c);
    hide Compressor.Valid;
  }

  lemma EndingIs(c: Compressor, all: seq<byte>, out0: seq<byte>, n: nat)
    requires c.Valid() && c.nextIn == [] && c.accepted == all && Extends(out0, c.output)
    requires |c.output| == |out0| + n && Even(n) && if c.mode == Idle then n > 0 else c.MayFinish()
    ensures Ending(c, all, out0, n)
  {
  }

  lemma ClosedIs(c: Compressor, all: seq<byte>, out0: seq<byte>, n: nat, failed: bool)
    requires c.Valid() && c.mode == Idle && c.accepted == all && Extends(out0, c.output)
    requires |c.output| == |out0| + n && n > 0 && (failed <==> Even(n))
    ensures Closed(c, all, out0, n, failed)
  {
  }

  lemma ClosedHas(c: Compressor, all: seq<byte>, out0: seq<byte>, n: nat, failed: bool)
    requires Closed(c, all, out0, n, failed)
    ensures c.Valid() && c.mode == Idle && c.accepted == all && Extends(out0, c.output)
    ensures |c.output| == |out0| + n && n > 0 && (failed <==> Even(n))
  {
  }

  /** One call that finishes, with an empty buffer. */
  method OneFinish(c: Compressor) returns (code: Answer)
    requires c.Valid() && c.nextIn == [] && (c.mode == Idle || c.MayFinish())
    modifies c, c.sink, c.inUse
    ensures c.Valid() && c.nextIn == [] && c.accepted == old(c.accepted) && Extends(old(c.output), c.output)
    ensures |c.output| + c.availOut == |old(c.output)| + CHUNK && |old(c.output)| <= |c.output|
    ensures if old(c.mode) == Idle then code == SequenceError && |c.output| == |old(c.output)|
            else if code == StreamEnd then |c.output| > |old(c.output)|
            else code == BZ_FINISH_OK && c.MayFinish() && c.availOut == 0
    ensures c.mode == Idle <==> code != BZ_FINISH_OK
    ensures code == BZ_FINISH_OK && c.ended == old(c.ended) ==> c.Pending() < old(c.Pending())
    ensures code == BZ_FINISH_OK && c.ended != old(c.ended) ==> c.ended
  {
    hide *;
    ChunkIs();
    ghost var acc0, rest, out0, ended0, left0 := c.accepted, c.nextIn, c.output, c.ended, c.Pending() + |c.output|;
    c.Offer([], CHUNK);
    assert rest + [] == rest;
    code := c.BzCompress(BZ_FINISH);
    TookKeeps(rest, acc0, c.nextIn, c.accepted);
    assert acc0 + [] == acc0 && c.accepted + [] == c.accepted;
    LongerOutput(out0, c.output);
    if code == BZ_FINISH_OK { NearerIs(c, ended0, left0, |out0|); }
  }

  lemma LongerOutput(a: seq<byte>, b: seq<byte>)
    requires a <= b
    ensures Extends(a, b) && |a| <= |b|
  {
  }

  method EndTurn(c: Compressor, n0: nat, ghost all: seq<byte>, ghost out0: seq<byte>)
      returns (n: nat, stop: bool, failed: bool)
    requires Ending(c, all, out0, n0)
    modifies c, c.sink, c.inUse
    ensures if stop then Closed(c, all, out0, n, failed) else Ending(c, all, out0, n)
    ensures !stop ==> (c.mode == Idle && old(c.mode) != Idle) || (c.mode != Idle && old(c.mode) != Idle
                        && ((c.ended && !old(c.ended)) || (c.ended == old(c.ended) && c.Pending() < old(c.Pending()))))
  {
    hide *;
    ChunkIs();
    EndingHas(c, all, out0, n0);
    ghost var out1 := c.output;
    var code := OneFinish(c);
    ExtendsOn(out0, out1, c.output);
    EvenMore(n0, CHUNK - c.availOut);
    failed := code == SequenceError;
    n := if failed then n0 else n0 + (CHUNK - c.availOut);
    stop := failed || c.availOut != 0;
    if stop {
      ClosedIs(c, all, out0, n, failed);
    } else {
      EndingIs(c, all, out0, n);
    }
  }

  /** The last write, from the destructor. What it answers is not looked at there. */
  method WriteEnd(c: Compressor, ghost sofar: seq<byte>) returns (ret: int)
    requires Encoding(c, sofar)
    modifies c, c.sink, c.inUse
    ensures c.Valid() && c.mode == Idle && c.accepted == sofar && Extends(old(c.output), c.output)
    ensures var n := |c.output| - |old(c.output)|; (ret == -1 <==> Even(n)) && (ret == n || ret == -1) && n > 0
  {
    hide *;
    ghost var out0 := c.output;
    EndingStarts(c, sofar);
    ret := 0;
    var stop, failed := false, false;
    while !stop
      modifies c, c.sink, c.inUse
      invariant ret >= 0 && if stop then Closed(c, sofar, out0, ret, failed) else Ending(c, sofar, out0, ret)
      decreases !stop, c.mode != Idle, !c.ended, c.Pending()
    {
      EndingHas(c, sofar, out0, ret);
      ret, stop, failed := EndTurn(c, ret, sofar, out0);
    }
    ClosedHas(c, sofar, out0, ret, failed);
    if failed { ret := -1; }
  }

  // ------------------------------------------------------------ compressing a file

  /**
   * `compress`: the file is read and written chunk by chunk, and the program gives up when a write fails. Unless it
   * does, what has been written is a stream that means the file. `sizes` are the bytes that came out for each chunk:
   * the program gives up exactly when those for one of them fill buffers to the end, and what has been written then is
   * the beginning of a stream that means a beginning of the file.
   */
  method CompressFile(table: seq<word>, file: seq<byte>)
      returns (out: seq<byte>, failed: bool, ghost sizes: seq<nat>)
    requires |table| == 256
    ensures !failed ==> WholeMeaning(table, out) == Meaning(file, BZ_STREAM_END, 0)
    ensures failed <==> exists i :: 0 <= i < |sizes| && sizes[i] > 0 && sizes[i] % 0x40000 == 0
    ensures if failed then |out| == Sum(sizes) else |out| > Sum(sizes) && |sizes| == (|file| + 4095) / 4096
    ensures failed ==> |sizes| <= (|file| + 4095) / 4096 && Begins(table, file, out)
  {
    hide *;
    ChunkIs();
    assert Inputs([]) == [] by { NoInputs(); }
    var c := Opened(table, 9, 0);
    NothingYet(c);
    var i: nat := 0;
    assert file[..0] == [];
    sizes := [];
    SumIs([], 0);
    while i < |file|
      modifies c, c.sink, c.inUse
      invariant i <= |file| && Encoding(c, file[..i]) && c.table == table && |c.output| == Sum(sizes)
      invariant |sizes| == (i + 4095) / 4096 && (i < |file| ==> i == 4096 * |sizes|)
      invariant forall j :: 0 <= j < |sizes| ==> !(sizes[j] > 0 && sizes[j] % 0x40000 == 0)
    {
      var k := NextRead(i, |file|);
      ghost var size0 := |c.output|;
      assert file[..i] + file[i..k] == file[..k];
      var ret := WriteRun(c, file[i..k], file[..i]);
      ghost var size := |c.output| - size0;
      EvenIs(size);
      SumIs(sizes, size);
      sizes := sizes + [size];
      if ret < 0 {
        assert sizes[|sizes| - 1] == size;
        BeginsIs(c, file, k);
        return c.output, true, sizes;
      }
      i := k;
    }
    assert file[..i] == file;
    var ret := WriteEnd(c, file);
    OutputMeansInput(c);
    out, failed := c.output, false;
  }

  /** The bytes are the beginning of a stream that means a beginning of the file. */
  ghost predicate Begins(table: seq<word>, file: seq<byte>, out: seq<byte>)
    requires |table| == 256
  {
    exists whole, text ::
      out <= whole && text <= file && WholeMeaning(table, whole) == Meaning(text, BZ_STREAM_END, 0)
  }

  lemma BeginsIs(c: Compressor, file: seq<byte>, k: nat)
    requires k <= |file| && Encoding(c, file[..k])
    ensures |c.table| == 256 && Begins(c.table, file, c.output)
  {
    hide WholeMeaning, Texts, Compressor.Valid;
    var whole := OutputBegins(c);
    assert Texts(c.closed) <= file;
  }

  ghost function Sum(sizes: seq<nat>): nat {
    if sizes == [] then 0 else Sum(sizes[..|sizes| - 1]) + sizes[|sizes| - 1]
  }

  lemma SumIs(sizes: seq<nat>, size: nat)
    ensures Sum(sizes + [size]) == Sum(sizes) + size && Sum([]) == 0
  {
    assert (sizes + [size])[..|sizes|] == sizes;
  }

  lemma EvenIs(n: int)
    ensures Even(n) <==> n % 0x40000 == 0
  {
  }

  lemma NothingYet(c: Compressor)
    requires c.Valid() && c.mode == Running && c.accepted + c.nextIn == []
    ensures Encoding(c, [])
  {
    assert |c.accepted + c.nextIn| == 0;
    hide Compressor.Valid;
  }

  /** Where the next chunk ends. */
  function NextRead(i: nat, n: nat): (k: nat)
    requires i < n
    ensures i < k <= n && (k == n || k == i + 4096) && k <= i + 4096
  {
    Min(i + READ, n)
  }

  // ------------------------------------------------------------ decoding

  /** The decoder waits for more input, all that came out having been written on to `base`. */
  ghost predicate Open(d: Decompressor, base: seq<byte>, m: Meaning, more: seq<bool>)
    reads d, d.reader.tt, d.reader.ll16, d.reader.ll4, d.reader.cftab
  {
    Underway(d, m, more) && d.output == base && !d.small
  }

  /** The stream has ended, and all of it has been written. */
  ghost predicate Over(d: Decompressor, base: seq<byte>, m: Meaning)
    reads d, d.reader.tt, d.reader.ll16, d.reader.ll4, d.reader.cftab
  {
    d.Valid() && !d.spent && d.at.Ended? && base == m.out && m.code == BZ_STREAM_END
  }

  /** The stream is wrong. */
  ghost predicate Bad(base: seq<byte>, m: Meaning) {
    base <= m.out && m.code != BZ_OK && m.code != BZ_STREAM_END
  }

  lemma OpenHas(d: Decompressor, base: seq<byte>, m: Meaning, more: seq<bool>)
    requires Open(d, base, m, more)
    ensures Underway(d, m, more) && d.Valid() && !d.spent && !d.at.Ended? && d.output == base && !d.small
    ensures |base| <= |m.out| && base <= m.out
  {
    hide Underway;
    UnderwayIs(d, m, more);
  }

  lemma OpenIs(d: Decompressor, base: seq<byte>, m: Meaning, more: seq<bool>)
    requires Underway(d, m, more) && d.output == base && !d.small
    ensures Open(d, base, m, more)
  {
  }

  lemma OverHas(d: Decompressor, base: seq<byte>, m: Meaning)
    requires Over(d, base, m)
    ensures d.Valid() && !d.spent && d.at.Ended? && base == m.out && m.code == BZ_STREAM_END
  {
  }

  /** A stream that ends as it should has no block that breaks off. */
  lemma {:induction false} EndedWhole(table: seq<word>, s: Stage, combined: word, bits: seq<bool>)
    requires |table| == 256 && GoodStage(s)
    ensures Future(table, s, combined, bits).code == BZ_STREAM_END ==> Future(table, s, combined, bits).cut == 0
    decreases |bits|, Rank(s)
  {
    match s
    case Reading(d) =>
      var (d', bits') := Run(d, bits);
      RunConsumes(d, bits);
      match d' {
        case Output(h, column) =>
          if d == d' { RunStopped(d, bits); }
          EndedWhole(table, StartWriting(h, column), combined, bits');
        case _ =>
      }
    case Writing(h, _, _, _, _, _) =>
      var r := Remaining(s);
      if !r.corrupt && CrcHolds(table, s) {
        EndedWhole(table, Reading(BlkHdr(h.bs, 0)), Combine(combined, Finalise(CrcFrom(table, s.crc, r.text))), bits);
      }
  }

  /** Only a block that breaks off loses bytes. */
  ghost predicate Sound(m: Meaning) {
    m.code == BZ_STREAM_END ==> m.cut == 0
  }

  datatype Outcome = Waits | Ends | Wrong

  /**
   * What a write of the decoder leads to: the decoder waits for more input, or the stream has ended, or it is wrong. At
   * the end the write fails just when its bytes fill buffers to the end.
   */
  ghost predicate Decoded(d: Decompressor, base0: seq<byte>, base: seq<byte>, m: Meaning, more: seq<bool>, ret: int,
      o: Outcome)
    reads d, d.reader.tt, d.reader.ll16, d.reader.ll4, d.reader.cftab
  {
    && Extends(base0, base) && |base0| <= |base|
    && match o
       case Waits => ret == |base| - |base0| && Open(d, base, m, more) && !d.CanGoOn() && !d.at.Output?
       case Ends =>
         && base == m.out && m.code == BZ_STREAM_END && (ret == |base| - |base0| || ret == -1)
         && (ret >= 0 ==> Over(d, base, m)) && (ret == -1 <==> |base| > |base0| && Even(|base| - |base0|))
       case Wrong => ret == -1 && Bad(base, m)
  }

  /** One call with an empty buffer. What comes out is written on unless the call answers an error. */
  method OneDecode(d: Decompressor, piece: seq<byte>, base0: seq<byte>, ghost m: Meaning, ghost more: seq<bool>)
      returns (code: Code, base: seq<byte>)
    requires Open(d, base0, m, Unpack(piece) + more) && Sound(m)
    modifies d
    ensures Extends(base0, base) && |base0| <= |base|
    ensures code == BZ_OK || code == BZ_STREAM_END ==> |base| + d.availOut == |base0| + CHUNK
    ensures code == BZ_OK ==> Open(d, base, m, more) && Resting(d, base, m) && (d.availOut > 0 ==> !d.at.Output?)
    ensures piece == [] && !old(d.at.Output?) && !old(d.CanGoOn()) ==> code == BZ_OK && |base| == |base0|
    ensures code == BZ_STREAM_END ==> Over(d, base, m)
    ensures code != BZ_OK && code != BZ_STREAM_END ==> base == base0 && Bad(base, m)
  {
    hide *;
    OpenHas(d, base0, m, Unpack(piece) + more);
    ChunkIs();
    ghost var lost;
    code, lost := OnePiece(d, piece, CHUNK, m, more);
    LongerOutput(base0, d.output);
    SameStart(base0);
    if code == BZ_OK {
      base := d.output;
      UnderwayIs(d, m, more);
      OpenIs(d, base, m, more);
      RestsFor(d, base, m, more);
    } else if code == BZ_STREAM_END {
      base := d.output;
      StopsWhole(d, m, base0, base, lost);
    } else {
      base := base0;
      StopsWrong(m, base0, d.output, code, d.small, lost);
    }
  }

  lemma SameStart(a: seq<byte>)
    ensures Extends(a, a)
  {
  }

  /** A call has gone as far as it could; if a block is being given out, there is more of it. */
  ghost predicate Resting(d: Decompressor, base: seq<byte>, m: Meaning)
    reads d
  {
    !d.CanGoOn() && (d.at.Output? ==> base != m.out)
  }

  lemma RestsFor(d: Decompressor, base: seq<byte>, m: Meaning, more: seq<bool>)
    requires Open(d, base, m, more) && !d.CanGoOn() && d.Valid() && KnowsMore(d, more)
    ensures Resting(d, base, m) && (d.at.Output? ==> d.availOut == 0)
  {
    hide Decompressor.Valid, Decompressor.Means;
  }

  lemma RestingHas(d: Decompressor, base: seq<byte>, m: Meaning)
    requires Resting(d, base, m)
    ensures !d.CanGoOn() && (d.at.Output? ==> base != m.out)
  {
  }

  lemma StopsWhole(d: Decompressor, m: Meaning, before: seq<byte>, out: seq<byte>, lost: seq<byte>)
    requires StopsAfter(m, before, out, BZ_STREAM_END, d.small, lost) && Sound(m)
    requires d.Valid() && d.at.Ended? && !d.spent
    ensures Over(d, out, m)
  {
    hide Decompressor.Valid;
    assert out + [] == out;
  }

  lemma StopsWrong(m: Meaning, before: seq<byte>, out: seq<byte>, code: Code, small: bool, lost: seq<byte>)
    requires StopsAfter(m, before, out, code, small, lost) && code != BZ_OK && code != BZ_STREAM_END
    ensures Bad(before, m)
  {
  }

  lemma BadHas(base: seq<byte>, m: Meaning)
    requires Bad(base, m)
    ensures m.code != BZ_OK && m.code != BZ_STREAM_END
  {
  }

  /** A call after the end answers an error and does nothing. */
  method AfterEnd(d: Decompressor, piece: seq<byte>, base: seq<byte>, ghost m: Meaning) returns (code: Code)
    requires Over(d, base, m)
    modifies d
    ensures code == BZ_SEQUENCE_ERROR
  {
    hide *;
    OverHas(d, base, m);
    d.Give(piece, CHUNK, []);
    ghost var lost;
    code, lost := d.BzDecompress([]);
  }

  /**
   * `bz_strm::write` of the decoder, of one chunk: like the encoder's, it calls the library once more whenever the
   * buffer has been filled. After the end of the stream that is an error.
   */
  method WriteDecode(d: Decompressor, buf: seq<byte>, base0: seq<byte>, ghost m: Meaning, ghost more: seq<bool>)
      returns (ret: int, base: seq<byte>, ghost o: Outcome)
    requires Open(d, base0, m, Unpack(buf) + more) && Sound(m)
    modifies d
    ensures Decoded(d, base0, base, m, more, ret, o)
  {
    hide *;
    ChunkIs();
    NoBits(more);
    SameStart(base0);
    EvenIs(0);
    var piece := buf;
    base := base0;
    ghost var over := false;
    while true
      modifies d
      invariant Extends(base0, base) && |base0| <= |base| && Even(|base| - |base0|)
      invariant if over then Over(d, base, m) && |base| > |base0| else Open(d, base, m, Unpack(piece) + more)
      invariant !over && |base| > |base0| ==> piece == [] && Resting(d, base, m)
      decreases |m.out| - |base|
    {
      ghost var base1 := base;
      if over {
        OverHas(d, base, m);
      } else {
        OpenHas(d, base, m, Unpack(piece) + more);
      }
      if d.at.Ended? {
        var code := AfterEnd(d, piece, base, m);
        EndsIs(d, base0, base, m, more, -1);
        return -1, base, Ends;
      }
      var code;
      if |base| > |base0| { RestingHas(d, base, m); }
      code, base := OneDecode(d, piece, base, m, more);
      ExtendsOn(base0, base1, base);
      if code != BZ_OK && code != BZ_STREAM_END {
        WrongIs(d, base0, base, m, more);
        return -1, base, Wrong;
      }
      EvenMore(|base1| - |base0|, CHUNK - d.availOut);
      ret := |base| - |base0|;
      if d.availOut != 0 {
        if code == BZ_OK {
          o := Waits;
          RestingHas(d, base, m);
          WaitsIs(d, base0, base, m, more);
        } else {
          o := Ends;
          OverHas(d, base, m);
          GrownToEnd(base1, base);
          EndsIs(d, base0, base, m, more, ret);
        }
        return;
      }
      over := code == BZ_STREAM_END;
      if over { OverHas(d, base, m); } else { OpenHas(d, base, m, more); }
      piece := [];
    }
  }

  lemma GrownToEnd(a: seq<byte>, b: seq<byte>)
    requires Extends(a, b)
    ensures a != b ==> |a| < |b|
  {
  }

  lemma NoBits(more: seq<bool>)
    ensures Unpack([]) + more == more
  {
    assert Unpack([]) == [];
  }

  lemma EndsIs(d: Decompressor, base0: seq<byte>, base: seq<byte>, m: Meaning, more: seq<bool>, ret: int)
    requires Extends(base0, base) && |base0| <= |base| && base == m.out && m.code == BZ_STREAM_END
    requires (ret == |base| - |base0| || ret == -1) && (ret >= 0 ==> Over(d, base, m))
    requires ret == -1 <==> |base| > |base0| && Even(|base| - |base0|)
    ensures Decoded(d, base0, base, m, more, ret, Ends)
  {
    hide Over;
  }

  lemma WaitsIs(d: Decompressor, base0: seq<byte>, base: seq<byte>, m: Meaning, more: seq<bool>)
    requires Extends(base0, base) && |base0| <= |base| && Open(d, base, m, more) && !d.CanGoOn() && !d.at.Output?
    ensures Decoded(d, base0, base, m, more, |base| - |base0|, Waits)
  {
    hide Open;
  }

  lemma WrongIs(d: Decompressor, base0: seq<byte>, base: seq<byte>, m: Meaning, more: seq<bool>)
    requires Extends(base0, base) && |base0| <= |base| && Bad(base, m)
    ensures Decoded(d, base0, base, m, more, -1, Wrong)
  {
    hide Bad;
  }

  lemma DecodedIs(d: Decompressor, base0: seq<byte>, base: seq<byte>, m: Meaning, more: seq<bool>, ret: int, o: Outcome)
    requires Decoded(d, base0, base, m, more, ret, o)
    ensures |base0| <= |base|
    ensures o == Waits ==> ret >= 0 && Open(d, base, m, more) && !d.CanGoOn() && !d.at.Output?
    ensures o == Ends ==> base == m.out && m.code == BZ_STREAM_END && (ret >= 0 ==> Over(d, base, m))
                          && (ret < 0 <==> |base| > |base0| && Even(|base| - |base0|))
    ensures o == Wrong ==> ret < 0 && Bad(base, m)
  {
    hide Open, Over, Bad;
  }

  // ------------------------------------------------------------ decompressing a file

  /** The decoder got no more input: what it meant ends there. */
  lemma Starved(d: Decompressor, base: seq<byte>, m: Meaning)
    requires Open(d, base, m, []) && !d.CanGoOn() && !d.at.Output?
    ensures m.code == BZ_OK && base == m.out
  {
    hide Waiting, Walking, Unpack, StageFor, Ok;
    assert d.Bits() + [] == d.Bits();
    assert Run(d.at, d.Bits()) == (d.at, d.Bits());
    assert base + [] == base;
  }

  lemma Fresh(d: Decompressor, m: Meaning, bits: seq<bool>)
    requires d.Valid() && !d.spent && d.at == Magic(0) && d.combined == 0 && d.Bits() == [] && d.output == []
    requires d.nextIn == [] && !d.small && m == Future(d.table, Reading(Magic(0)), 0, bits)
    ensures Open(d, [], m, bits) && !d.CanGoOn() && !d.at.Output? && Sound(m)
  {
    StartMeans(d, bits);
    EndedWhole(d.table, Reading(Magic(0)), 0, bits);
    hide Waiting, Walking, Unpack, StageFor, Future, Underway;
  }

  /** Between two chunks: the decoder waits for more, or the stream has ended. */
  ghost predicate Between(d: Decompressor, base: seq<byte>, m: Meaning, more: seq<bool>, last: nat, o: Outcome)
    reads d, d.reader.tt, d.reader.ll16, d.reader.ll4, d.reader.cftab
  {
    match o
    case Waits => Open(d, base, m, more) && !d.CanGoOn() && !d.at.Output?
    case Ends => Over(d, base, m) && last <= |base| && !(last > 0 && Even(last))
    case Wrong => false
  }

  lemma BetweenHas(d: Decompressor, base: seq<byte>, m: Meaning, more: seq<bool>, last: nat, o: Outcome)
    requires Between(d, base, m, more, last, o)
    ensures o == Waits || o == Ends
    ensures o == Waits ==> Open(d, base, m, more) && !d.CanGoOn() && !d.at.Output? && !d.at.Ended?
    ensures o == Ends ==> Over(d, base, m) && d.at.Ended? && last <= |base| && !(last > 0 && Even(last))
    ensures o == Ends ==> base == m.out && m.code == BZ_STREAM_END
  {
    if o == Waits { OpenHas(d, base, m, more); }
    if o == Ends { OverHas(d, base, m); }
    hide Open, Over;
  }

  lemma BetweenIs(d: Decompressor, base: seq<byte>, m: Meaning, more: seq<bool>, last: nat, o: Outcome)
    requires o == Waits || o == Ends
    requires o == Waits ==> Open(d, base, m, more) && !d.CanGoOn() && !d.at.Output?
    requires o == Ends ==> Over(d, base, m) && last <= |base| && !(last > 0 && Even(last))
    ensures Between(d, base, m, more, last, o)
  {
    hide Open, Over;
  }

  /** What comes of a file that is decompressed: see below. */
  ghost predicate FileDecoded(m: Meaning, base: seq<byte>, failed: bool, last: nat, trailing: bool) {
    && (m.code == BZ_OK ==> !failed && base == m.out)
    && (m.code == BZ_STREAM_END ==>
          base == m.out && last <= |base| && (failed <==> trailing || (last > 0 && last % 0x40000 == 0)))
    && (m.code != BZ_OK && m.code != BZ_STREAM_END ==> failed && base <= m.out)
  }

  /**
   * `decompress`: the file is read and written chunk by chunk, and the program gives up when a write fails. It does on
   * a stream that is wrong, having written a beginning of it. It does not on one that is cut off. A whole stream is
   * always written in full, but the program gives up even so if another chunk follows the one in which the stream
   * ends, or if the `last` bytes, those written for that chunk, fill buffers to the end.
   */
  method DecompressFile(table: seq<word>, stream: seq<byte>)
      returns (base: seq<byte>, failed: bool, last: nat, trailing: bool)
    requires |table| == 256
    ensures FileDecoded(WholeMeaning(table, stream), base, failed, last, trailing)
    ensures |stream| <= 4096 && WholeMeaning(table, stream).code == BZ_STREAM_END ==> last == |base| && !trailing
  {
    hide *;
    var d := new Decompressor(table, false);
    ghost var m := WholeMeaning(table, stream);
    WholeIs(table, stream);
    Fresh(d, m, Unpack(stream));
    base, failed, last, trailing := [], false, 0, false;
    ghost var o := Waits;
    var i: nat := 0;
    assert stream[0..] == stream;
    BetweenIs(d, base, m, Unpack(stream[0..]), last, o);
    while i < |stream|
      modifies d
      invariant i <= |stream| && Between(d, base, m, Unpack(stream[i..]), last, o) && !failed && !trailing
      invariant i == 0 || i >= 4096 || i == |stream|
      invariant if i == 0 then base == [] && o == Waits else o == Ends && |stream| <= 4096 ==> last == |base|
    {
      var k := NextRead(i, |stream|);
      BetweenHas(d, base, m, Unpack(stream[i..]), last, o);
      if d.at.Ended? {
        var code := AfterEnd(d, stream[i..k], base, m);
        EndFails(m, base, last, true);
        return base, true, last, true;
      }
      PiecesOf(stream, i, k);
      var base0 := base;
      var ret;
      ret, base, o := WriteDecode(d, stream[i..k], base, m, Unpack(stream[k..]));
      DecodedIs(d, base0, base, m, Unpack(stream[k..]), ret, o);
      last := |base| - |base0|;
      if ret < 0 {
        if o == Wrong { BadHas(base, m); }
        Fails(m, base, last, o);
        return base, true, last, false;
      }
      BetweenIs(d, base, m, Unpack(stream[k..]), last, o);
      i := k;
    }
    NothingLeft(stream, i);
    BetweenHas(d, base, m, Unpack(stream[i..]), last, o);
    if o == Waits { Starved(d, base, m); }
    Succeeds(m, base, last);
  }

  lemma WholeIs(table: seq<word>, stream: seq<byte>)
    requires |table| == 256
    ensures WholeMeaning(table, stream) == Future(table, Reading(Magic(0)), 0, Unpack(stream))
  {
  }

  lemma PiecesOf(stream: seq<byte>, i: nat, k: nat)
    requires i <= k <= |stream|
    ensures Unpack(stream[i..]) == Unpack(stream[i..k]) + Unpack(stream[k..])
  {
    UnpackAppend(stream[i..k], stream[k..]);
    assert stream[i..k] + stream[k..] == stream[i..];
  }

  lemma NothingLeft(stream: seq<byte>, i: nat)
    requires i == |stream|
    ensures Unpack(stream[i..]) == []
  {
    assert stream[i..] == [];
  }

  lemma EndFails(m: Meaning, base: seq<byte>, last: nat, trailing: bool)
    requires base == m.out && m.code == BZ_STREAM_END && last <= |base| && trailing
    ensures FileDecoded(m, base, true, last, trailing)
  {
  }

  lemma Fails(m: Meaning, base: seq<byte>, last: nat, o: Outcome)
    requires o == Ends ==> base == m.out && m.code == BZ_STREAM_END && 0 < last <= |base| && Even(last)
    requires o == Wrong ==> Bad(base, m)
    requires o != Waits
    ensures FileDecoded(m, base, true, last, false)
  {
  }

  lemma Succeeds(m: Meaning, base: seq<byte>, last: nat)
    requires base == m.out && (m.code == BZ_OK || m.code == BZ_STREAM_END)
    requires m.code == BZ_STREAM_END ==> last <= |base| && !(last > 0 && Even(last))
    ensures FileDecoded(m, base, false, last, false)
  {
  }

  /** A file compressed and decompressed is the file, unless compressing gave up. */
  method FileThereAndBack(table: seq<word>, file: seq<byte>)
      returns (out: seq<byte>, back: seq<byte>, gaveUp: bool, ghost sizes: seq<nat>)
    requires |table| == 256
    ensures !gaveUp ==> back == file
    ensures gaveUp ==> Begins(table, file, out) && |out| == Sum(sizes) && |sizes| <= (|file| + 4095) / 4096
    ensures gaveUp <==> exists i :: 0 <= i < |sizes| && sizes[i] > 0 && sizes[i] % 0x40000 == 0
  {
    out, gaveUp, sizes := CompressFile(table, file);
    back := [];
    if !gaveUp {
      var late, last, trailing;
      back, late, last, trailing := DecompressFile(table, out);
    }
  }
}
