/** Compression and decompression together: whatever the calls on either side, the input comes back. */
module RoundTrip {
  import opened Base
  import opened Bits
  import opened RunLength
  import opened Streams
  import opened Decoder
  import opened Compress
  import opened CompressBlock
  import opened Decompress

  /** One call of the compressor: what the caller adds to the input, the room it gives, the action. */
  datatype CompressCall = CompressCall(input: seq<byte>, room: nat, action: Action)

  /** The bytes of an idle compressor, read as a stream, mean the input that was accepted. */
  lemma OutputMeansInput(c: Compressor)
    requires c.Valid() && c.mode == Idle
    ensures |c.table| == 256
    ensures WholeMeaning(c.table, c.output) == Meaning(c.accepted, BZ_STREAM_END, 0)
  {
    IdleIsComplete(c);
    hide Future, StreamBits, Texts, Unpack, History, Filling;
    var pad: nat :| pad < 8 && Unpack(c.output) == StreamBits(c.closed, c.table, c.blockSize100k) + Zeros(pad);
    StreamMeans(c.closed, c.table, c.blockSize100k, Zeros(pad));
  }

  function Inputs(calls: seq<CompressCall>): seq<byte> {
    if calls == [] then [] else Inputs(calls[..|calls| - 1]) + calls[|calls| - 1].input
  }

  lemma InputsNext(calls: seq<CompressCall>, i: nat)
    requires i < |calls|
    ensures Inputs(calls[..i]) + calls[i].input == Inputs(calls[..i + 1]) && calls[..0] == []
  {
    assert calls[..i + 1][..i] == calls[..i];
  }

  /**
   * Any calls of the compressor: each adds input, gives room and asks for an action. If the `k`-th call answers
   * BZ_STREAM_END, the output of all calls means the input of all calls. Running calls and then one that finishes get
   * there, unless the last call has too little room.
   */
  method CompressInCalls(table: seq<word>, blockSize100k: int, workFactor: int, calls: seq<CompressCall>)
      returns (out: seq<byte>, k: nat, done: bool)
    requires |table| == 256 && 1 <= blockSize100k <= 9 && 0 <= workFactor <= 250
    ensures k <= |calls| && (done ==> WholeMeaning(table, out) == Meaning(Inputs(calls[..k]), BZ_STREAM_END, 0))
    ensures !done ==> k == |calls| && (RunsThenFinishes(calls) ==> calls[|calls| - 1].room <= |out|)
  {
    hide *;
    if RunsThenFinishes(calls) { InTheEnd(calls); }
    var c := Opened(table, blockSize100k, workFactor);
    k, done := 0, false;
    while k < |calls| && !done
      modifies c, c.sink, c.inUse
      invariant k <= |calls| && c.Valid() && c.accepted + c.nextIn == Inputs(calls[..k]) && (c.mode == Idle <==> done)
      invariant c.table == table && (done ==> c.nextIn == [])
      invariant RunsThenFinishes(calls) && !done ==>
                  if k < |calls| then c.mode == Running else calls[k - 1].room <= |c.output|
    {
      InputsNext(calls, k);
      done := OneCall(c, calls[k], Inputs(calls[..k]));
      k := k + 1;
    }
    out := c.output;
    if done {
      OutputMeansInput(c);
      assert c.accepted + [] == c.accepted;
    }
  }

  /** Calls that run, and a last one that finishes. */
  ghost predicate RunsThenFinishes(calls: seq<CompressCall>) {
    && calls != [] && calls[|calls| - 1].action == BZ_FINISH
    && forall i :: 0 <= i < |calls| - 1 ==> calls[i].action == BZ_RUN
  }

  lemma InTheEnd(calls: seq<CompressCall>)
    requires RunsThenFinishes(calls)
    ensures calls != [] && calls[|calls| - 1].action == BZ_FINISH
    ensures forall i :: 0 <= i < |calls| - 1 ==> calls[i].action == BZ_RUN
  {
  }

  method Opened(table: seq<word>, blockSize100k: int, workFactor: int) returns (c: Compressor)
    requires |table| == 256 && 1 <= blockSize100k <= 9 && 0 <= workFactor <= 250
    ensures fresh(c) && fresh(c.sink) && fresh(c.inUse) && c.Valid() && c.table == table && c.mode == Running
    ensures c.accepted + c.nextIn == Inputs([]) && c.output == []
  {
    c := new Compressor(table, blockSize100k, workFactor);
    FreshIsValid(c);
  }

  /** One call: the input joins what is waiting, and the compressor takes what it takes. */
  method OneCall(c: Compressor, call: CompressCall, ghost sofar: seq<byte>) returns (done: bool)
    requires c.Valid() && c.mode != Idle && c.accepted + c.nextIn == sofar
    modifies c, c.sink, c.inUse
    ensures c.Valid() && c.accepted + c.nextIn == sofar + call.input && (c.mode == Idle <==> done)
            && (done ==> c.nextIn == [])
    ensures old(c.mode) == Running && call.action == BZ_RUN ==> c.mode == Running
    ensures old(c.mode) == Running && call.action == BZ_FINISH && !done ==> call.room <= |c.output|
  {
    hide *;
    ghost var acc0, rest := c.accepted, c.nextIn;
    Assoc(acc0, rest, call.input);
    c.Offer(call.input, call.room);
    MayFinishIs(c);
    InOrderIs(c, call.action);
    var ret := c.BzCompress(call.action);
    TookKeeps(rest + call.input, acc0, c.nextIn, c.accepted);
    done := ret == StreamEnd;
  }

  lemma FreshIsValid(c: Compressor)
    requires c.Remembers() && c.Fills() && c.Open() && c.mode == Running && c.state == AtInput && c.stateInCh == 256
             && c.block == []
    ensures c.Valid()
  {
    FillsParts(c);
    hide History, Filling, Written, BitSink.Valid, PackRuns, Text, Runs;
  }

  /** A stream cut into pieces, shorter ones once it is used up. */
  function Cut(s: seq<byte>, cuts: seq<nat>): (p: seq<seq<byte>>)
    ensures |p| == |cuts| + 1
    decreases |cuts|
  {
    if cuts == [] then [s]
    else
      var k := Min(cuts[0], |s|);
      [s[..k]] + Cut(s[k..], cuts[1..])
  }

  lemma {:induction false} CutFlattens(s: seq<byte>, cuts: seq<nat>)
    ensures Flatten(Cut(s, cuts)) == s
    decreases |cuts|
  {
    if cuts == [] {
      assert [s][1..] == [] && s + [] == s;
    } else {
      var k := Min(cuts[0], |s|);
      CutFlattens(s[k..], cuts[1..]);
      assert Cut(s, cuts)[1..] == Cut(s[k..], cuts[1..]);
      assert s == s[..k] + s[k..];
    }
  }

  /**
   * The whole way there and back. Input, room and actions of the compressor's calls are arbitrary; once one call has
   * answered BZ_STREAM_END, the stream is cut into arbitrary pieces and given back in either form with arbitrary room
   * per call. The decompressor never reports an error; what it gives out is always the beginning of the input, and it
   * is all of the input when a call returns BZ_STREAM_END, which happens whenever the last call has room to spare.
   */
  method ThereAndBack(table: seq<word>, blockSize100k: int, workFactor: int, calls: seq<CompressCall>, small: bool,
      cuts: seq<nat>, rooms: seq<nat>)
    returns (stream: seq<byte>, done: bool, k: nat, out: seq<byte>, ret: Code)
    requires |table| == 256 && 1 <= blockSize100k <= 9 && 0 <= workFactor <= 250 && |rooms| == |cuts| + 1
    ensures k <= |calls| && (done ==> ret == BZ_OK || ret == BZ_STREAM_END)
    ensures !done ==> k == |calls| && (RunsThenFinishes(calls) ==> calls[|calls| - 1].room <= |stream|)
    ensures done && ret == BZ_STREAM_END ==> out == Inputs(calls[..k])
    ensures done && ret == BZ_OK ==> out <= Inputs(calls[..k]) && rooms[|rooms| - 1] <= |out|
  {
    stream, k, done := CompressInCalls(table, blockSize100k, workFactor, calls);
    out, ret := [], BZ_OK;
    if done {
      hide *;
      CutFlattens(stream, cuts);
      var left, before;
      ghost var lost;
      out, ret, left, before, lost := DecompressInPieces(table, small, Cut(stream, cuts), rooms);
      assert out + [] == out;
    }
  }

  /** A whole input, offered at once, and calls that finish: they always come to an end. */
  method CompressAll(table: seq<word>, blockSize100k: int, workFactor: int, input: seq<byte>, room: nat)
      returns (out: seq<byte>)
    requires |table| == 256 && 1 <= blockSize100k <= 9 && 0 <= workFactor <= 250 && room > 0
    ensures WholeMeaning(table, out) == Meaning(input, BZ_STREAM_END, 0)
  {
    hide *;
    var c := Opened(table, blockSize100k, workFactor);
    assert Inputs([]) == [] by { NoInputs(); }
    NothingBefore(c.accepted, c.nextIn, input);
    c.Offer(input, room);
    MayFinishIs(c);
    FinishUp(c, room);
    OutputMeansInput(c);
    out := c.output;
  }

  lemma NoInputs()
    ensures Inputs([]) == []
  {
  }

  lemma NothingBefore(a: seq<byte>, b: seq<byte>, c: seq<byte>)
    requires a + b == []
    ensures a + (b + c) == c
  {
    assert |a + b| == 0;
  }

  /**
   * Every input, in every block size, comes back whole: compressed with any room per call, cut into any pieces, and
   * decompressed in either form with any room per call, if only the last call has more room than the input needs.
   */
  method AlwaysBack(table: seq<word>, blockSize100k: int, workFactor: int, input: seq<byte>, room: nat, small: bool,
      cuts: seq<nat>, rooms: seq<nat>)
    returns (out: seq<byte>, ret: Code)
    requires |table| == 256 && 1 <= blockSize100k <= 9 && 0 <= workFactor <= 250 && room > 0 && |rooms| == |cuts| + 1
             && rooms[|rooms| - 1] > |input|
    ensures out == input && ret == BZ_STREAM_END
  {
    var stream := CompressAll(table, blockSize100k, workFactor, input, room);
    hide *;
    CutFlattens(stream, cuts);
    var left, before;
    ghost var lost;
    out, ret, left, before, lost := DecompressInPieces(table, small, Cut(stream, cuts), rooms);
    assert out + [] == out;
  }
}
