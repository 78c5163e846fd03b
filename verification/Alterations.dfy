/** What the CRCs of a stream are for: blocks that came out altered are refused. */
module Alterations {
  import opened Base
  import opened MoveToFront
  import opened RunLength
  import opened Decoder
  import opened Streams
  import opened Crc
  import opened Compress

  /**
   * A block whose CRC is that of one text, and which comes out as another one: if they differ in four bytes in a row
   * only, the stream ends there with BZ_DATA_ERROR, after the altered text.
   */
  lemma AlteredBlock(table: seq<word>, s: Stage, a: seq<byte>, x: seq<byte>, y: seq<byte>, b: seq<byte>,
      combined: word, bits: seq<bool>)
    requires RemainderTable(table) && |x| == |y| <= 4 && x != y && |table| == 256
    requires s.Writing? && GoodStage(s) && s.crc == 0xffff_ffff && Remaining(s) == Spelling(a + y + b, false)
    requires s.h.crc == CrcOf(table, a + x + b)
    ensures Future(table, s, combined, bits) == Meaning(a + y + b, BZ_DATA_ERROR, 0)
  {
    ChangeFound(table, a, x, y, b);
    hide CrcFrom, RemainderTable, Remaining;
    assert CrcHolds(table, s) <==> CrcOf(table, a + y + b) == s.h.crc by { hide Finalise; }
  }

  ghost function CrcsIn(cs: seq<Closed>): (crcs: seq<word>)
    requires CrcsOk(cs)
    ensures |crcs| == |cs|
  {
    seq(|cs|, i requires 0 <= i < |cs| => cs[i].b.crc)
  }

  /** The combined CRC that the trailer of a stream carries, told from the CRCs of its blocks. */
  lemma {:induction false} CombinedIs(cs: seq<Closed>)
    requires CrcsOk(cs)
    ensures Combined(cs, 0) == CombinedOf(0, CrcsIn(cs))
  {
    hide Combine;
    if cs != [] {
      var (t, c) := (cs[..|cs| - 1], cs[|cs| - 1]);
      assert cs == t + [c] && CrcsOk(t);
      CombinedIs(t);
      CombinedAppend(t, 0, c);
      assert CrcsIn(cs)[..|t|] == CrcsIn(t);
    }
  }

  /** Streams of blocks whose CRCs differ in one place only have different trailers. */
  lemma AlteredTrailer(cs: seq<Closed>, ds: seq<Closed>, k: nat)
    requires CrcsOk(cs) && CrcsOk(ds) && |cs| == |ds| && k < |cs|
    requires 0 <= ds[k].b.crc < 0x1_0000_0000 && cs[k].b.crc != ds[k].b.crc
    requires forall i :: 0 <= i < |cs| && i != k ==> cs[i].b.crc == ds[i].b.crc
    ensures Combined(cs, 0) != Combined(ds, 0)
  {
    hide *;
    CombinedIs(cs);
    CombinedIs(ds);
    OneCrcOther(cs, ds, k);
    BlockChangeFound(0, CrcsIn(cs), k, ds[k].b.crc);
  }

  lemma OneCrcOther(cs: seq<Closed>, ds: seq<Closed>, k: nat)
    requires CrcsOk(cs) && CrcsOk(ds) && |cs| == |ds| && k < |cs|
    requires forall i :: 0 <= i < |cs| && i != k ==> cs[i].b.crc == ds[i].b.crc
    ensures CrcsIn(cs)[k] == cs[k].b.crc && CrcsIn(cs)[k := ds[k].b.crc] == CrcsIn(ds)
  {
  }
}
