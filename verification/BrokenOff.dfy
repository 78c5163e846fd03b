/** What a compressor has put out at any moment: the beginning of a stream that means a beginning of the input. */
module BrokenOff {
  import opened Base
  import opened Bits
  import opened BlockFormat
  import opened RunLength
  import opened ReadBlock
  import opened Streams
  import opened Decoder
  import opened Compress
  import opened Decompress

  /**
   * Whatever has been put out so far, at any moment, is the beginning of a whole stream, and that stream means a
   * beginning of the accepted input: the blocks that are closed.
   */
  lemma OutputBegins(c: Compressor) returns (whole: seq<byte>)
    requires c.Valid()
    ensures |c.table| == 256 && c.output <= whole && Texts(c.closed) <= c.accepted
    ensures WholeMeaning(c.table, whole) == Meaning(Texts(c.closed), BZ_STREAM_END, 0)
  {
    hide *;
    ClosedIsAccepted(c);
    if c.ended {
      whole := c.sent + c.sink.zbits;
      EndedIsWhole(c);
      WholeHas(c.table, c.blockSize100k, c.closed, whole);
    } else {
      SentBegins(c);
      whole := Ended(c.table, c.blockSize100k, c.closed, c.sent + c.sink.zbits);
    }
  }

  /** The stream that ends after these blocks, given its beginning. */
  lemma Ended(table: seq<word>, bs: int, closed: seq<Closed>, sofar: seq<byte>) returns (whole: seq<byte>)
    requires |table| == 256 && 1 <= bs <= 9 && AllClosed(closed, table, bs)
    requires Unpack(sofar) <= StreamBits(closed, table, bs)
    ensures sofar <= whole && WholeMeaning(table, whole) == Meaning(Texts(closed), BZ_STREAM_END, 0)
  {
    hide Future, StreamBits, Texts, Unpack, AllClosed;
    var bits := StreamBits(closed, table, bs);
    var pad: nat := (8 - |bits| % 8) % 8;
    whole := Packed(bits + Zeros(pad));
    BytesBegin(sofar, whole);
    StreamMeans(closed, table, bs, Zeros(pad));
  }

  lemma EndedIsWhole(c: Compressor)
    requires c.Valid() && c.ended
    ensures |c.table| == 256 && Whole(c.table, c.blockSize100k, c.closed, c.sent + c.sink.zbits)
  {
    hide Filling, History, Written, Whole, BitSink.Valid;
  }

  lemma ClosedIsAccepted(c: Compressor)
    requires c.Valid()
    ensures |c.table| == 256 && Texts(c.closed) <= c.accepted && 1 <= c.blockSize100k <= 9
    ensures AllClosed(c.closed, c.table, c.blockSize100k)
    ensures c.output <= c.sent + c.sink.zbits
  {
    hide Filling, BitSink.Valid, Texts, Text, RunText, Unpack, ClosedBits;
    assert Texts(c.closed) <= Texts(c.closed) + Text(c.pairs) + RunText(c.stateInCh, c.stateInLen);
  }

  lemma WholeHas(table: seq<word>, bs: int, closed: seq<Closed>, whole: seq<byte>)
    requires |table| == 256 && Whole(table, bs, closed, whole)
    ensures WholeMeaning(table, whole) == Meaning(Texts(closed), BZ_STREAM_END, 0)
  {
    hide Future, StreamBits, Texts, Unpack;
    var pad: nat :| pad < 8 && Unpack(whole) == StreamBits(closed, table, bs) + Zeros(pad);
    StreamMeans(closed, table, bs, Zeros(pad));
  }

  /** What has been sent and what waits are the beginning of the stream that ends here. */
  lemma SentBegins(c: Compressor)
    requires c.Valid() && !c.ended
    ensures |c.table| == 256 && 1 <= c.blockSize100k <= 9 && AllClosed(c.closed, c.table, c.blockSize100k)
    ensures Unpack(c.sent + c.sink.zbits) <= StreamBits(c.closed, c.table, c.blockSize100k)
  {
    hide *;
    SinkBegins(c);
    UnpackAppend(c.sent, c.sink.zbits);
    WrittenBegins(c.table, c.blockSize100k, c.closed, c.header, c.sent, c.sink.bits, Unpack(c.sink.zbits));
  }

  lemma SinkBegins(c: Compressor)
    requires c.Valid() && !c.ended
    ensures |c.table| == 256 && Written(c.table, c.blockSize100k, c.closed, c.header, c.sent, c.sink.bits)
    ensures Unpack(c.sink.zbits) <= c.sink.bits
  {
    hide Filling, History, Written, Unpack;
  }

  lemma WrittenBegins(table: seq<word>, bs: int, closed: seq<Closed>, header: bool, sent: seq<byte>, bits: seq<bool>,
      z: seq<bool>)
    requires |table| == 256 && Written(table, bs, closed, header, sent, bits) && z <= bits
    ensures 1 <= bs <= 9 && AllClosed(closed, table, bs) && Unpack(sent) + z <= StreamBits(closed, table, bs)
  {
    hide ClosedBits, Unpack, Combined, ToBits, AllClosed;
    CrcsAreWords(closed, table, bs);
    if header {
      var e := BytesBits(END_MAGIC) + ToBits(Combined(closed, 0), 32);
      JoinBegins(Unpack(sent), z, bits, BytesBits(StreamMagic(bs)), ClosedBits(closed, table, bs), e);
    }
  }

  lemma JoinBegins<T>(s: seq<T>, z: seq<T>, b: seq<T>, m: seq<T>, c: seq<T>, e: seq<T>)
    requires z <= b && s + b == m + c
    ensures s + z <= m + (c + e)
  {
    assert s + z <= s + b;
    assert m + c <= m + (c + e);
  }

  lemma {:induction false} Packed(bits: seq<bool>) returns (w: seq<byte>)
    requires |bits| % 8 == 0
    ensures Unpack(w) == bits
  {
    if bits == [] {
      w := [];
    } else {
      var n := |bits| - 8;
      w := Packed(bits[..n]);
      ValBound(bits[n..]);
      BitsOfVal(bits[n..]);
      UnpackOne(w, Val(bits[n..]));
      w := w + [Val(bits[n..])];
      assert bits == bits[..n] + bits[n..];
    }
  }

  lemma {:induction false} BytesBegin(a: seq<byte>, w: seq<byte>)
    requires Unpack(a) <= Unpack(w)
    ensures a <= w
  {
    hide *;
    if a != [] {
      var n := |a| - 1;
      ByteAt(a, n);
      SameSlices(Unpack(a), Unpack(w), 8 * n);
      ByteAt(w, n);
      BytesBegin(a[..n], w);
      OneByte(a[n]);
      OneByte(w[n]);
    }
  }

  lemma SameSlices<T(!new)>(a: seq<T>, w: seq<T>, k: nat)
    requires a <= w && |a| == k + 8
    ensures a[..k] <= w && a[k..k + 8] == w[k..k + 8]
  {
  }

  lemma ByteAt(s: seq<byte>, n: nat)
    requires n < |s|
    ensures Unpack(s)[..8 * n] == Unpack(s[..n]) && Unpack(s)[8 * n..8 * n + 8] == ToBits(s[n], 8)
  {
    hide *;
    Around(s, n);
    Inner(Unpack(s), Unpack(s[..n]), ToBits(s[n], 8), Unpack(s[n + 1..]), 8 * n);
  }

  lemma Around(s: seq<byte>, n: nat)
    requires n < |s|
    ensures Unpack(s) == Unpack(s[..n]) + ToBits(s[n], 8) + Unpack(s[n + 1..])
  {
    hide *;
    UnpackOne(s[..n], s[n]);
    UnpackAppend(s[..n] + [s[n]], s[n + 1..]);
    Joined(s, n);
  }

  lemma Joined<T(!new)>(s: seq<T>, n: nat)
    requires n < |s|
    ensures s[..n] + [s[n]] + s[n + 1..] == s
  {
  }

  lemma Inner<T(!new)>(w: seq<T>, a: seq<T>, b: seq<T>, c: seq<T>, k: nat)
    requires w == a + b + c && |a| == k && |b| == 8
    ensures w[..k] == a && w[k..k + 8] == b
  {
  }

  lemma OneByte(b: byte)
    ensures Unpack([b]) == ToBits(b, 8) && Val(ToBits(b, 8)) == b
  {
    ValOfBits(b, 8);
    UnpackOne([], b);
  }
}
