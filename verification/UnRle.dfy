/** `unRLE_obuf_to_output_FAST` and `_SMALL`: giving out a block, as far as there is room. */
module UnRle {
  import opened Base
  import opened BurrowsWheeler
  import opened MoveToFront
  import opened RunLength
  import opened BlockReaders

  /** state_out_ch, state_out_len, nblock_used, k0, tPos and calculatedBlockCRC. */
  datatype OutState = OutState(ch: byte, len: nat, used: nat, k0: int, tPos: int, crc: word)

  /** `w` is what the reader yields: the block's bytes and two more. */
  ghost predicate Yields(r: BlockReader, w: seq<byte>)
    reads r.tt, r.ll16, r.ll4, r.cftab
  {
    r.Valid() && |w| == |r.l| + 2 && forall k :: 0 <= k < |w| ==> w[k] == r.ByteAt(k)
  }

  /** The reader stands after `used` bytes, the last of which waits in `k0` unless the block is over. */
  ghost predicate Walking(r: BlockReader, w: seq<byte>, o: OutState)
    reads r.tt, r.ll16, r.ll4, r.cftab
  {
    && Yields(r, w) && 1 <= o.used <= |w| && r.At(o.tPos, o.used)
    && (o.used <= |w| - 2 ==> o.k0 == w[o.used - 1] as int)
  }

  /** The text still to come: the rest of the current run, then all further runs. */
  ghost function Rest(w: seq<byte>, o: OutState): Spelling
    requires 3 <= |w| && 1 <= o.used <= |w|
  {
    var e := Expand(w, |w| - 2, o.used - 1);
    Spelling(Copies(o.ch, o.len) + e.text, e.corrupt)
  }

  /** One more byte from the reader. */
  method NextByte(r: BlockReader, o: OutState, ghost w: seq<byte>) returns (c: byte, tPos: int)
    requires Yields(r, w) && o.used < |w| && r.At(o.tPos, o.used)
    ensures c == w[o.used] && r.At(tPos, o.used + 1)
  {
    var corrupt, k1;
    corrupt, k1, tPos := r.Get(o.tPos, o.used);
    assert w[o.used] == r.ByteAt(o.used);
    c := k1;
  }

  lemma RunStep(w: seq<byte>, o: OutState, o': OutState)
    requires 3 <= |w| && 1 <= o.used <= |w| - 2 && o.len == 0
    requires var (k, next) := RunAt(w, |w| - 2, o.used - 1);
             o'.ch == w[o.used - 1] && o'.len == k && o'.used == next + 1
    ensures Rest(w, o') == Rest(w, o)
  {
    assert Copies(o.ch, 0) + Expand(w, |w| - 2, o.used - 1).text == Expand(w, |w| - 2, o.used - 1).text;
  }

  /** A new run is started; at most five bytes are read. In this form a run of one is reached by a jump. */
  method NewRunFast(r: BlockReader, o0: OutState, nblockPP: int, ghost w: seq<byte>) returns (o: OutState)
    requires Walking(r, w, o0) && nblockPP == |w| - 1 && o0.used < nblockPP && o0.len == 0
    ensures Walking(r, w, o) && o.crc == o0.crc && o.len >= 1 && o.used > o0.used && Rest(w, o) == Rest(w, o0)
  {
    hide *;
    WalkingAt(r, w, o0);
    RunCases(w, o0.used - 1);
    o := o0.(ch := o0.k0, len := 1);
    var k1, tPos := NextByte(r, o, w);
    o := o.(used := o.used + 1, tPos := tPos);
    if k1 as int != o.k0 {
      o := o.(k0 := k1 as int);
    } else if o.used != nblockPP {
      o := o.(len := 2);
      k1, tPos := NextByte(r, o, w);
      o := o.(used := o.used + 1, tPos := tPos);
      if o.used != nblockPP {
        if k1 as int != o.k0 {
          o := o.(k0 := k1 as int);
        } else {
          o := ThirdAndOn(r, o, nblockPP, w);
        }
      }
    }
    RunStep(w, o0, o);
    WalkingIs(r, w, o);
  }

  /** From three equal bytes on, in both forms alike. */
  method ThirdAndOn(r: BlockReader, o0: OutState, nblockPP: int, ghost w: seq<byte>) returns (o: OutState)
    requires Yields(r, w) && nblockPP == |w| - 1 && 3 <= o0.used < nblockPP && r.At(o0.tPos, o0.used)
    ensures o.ch == o0.ch && o.crc == o0.crc && r.At(o.tPos, o.used) && o0.used < o.used <= |w|
    ensures if o0.used + 1 == nblockPP || w[o0.used] as int != o0.k0 then o.len == 3 && o.used == o0.used + 1
            else o.len == w[o0.used + 1] as int + 4 && o.used == o0.used + 3
    ensures o.used <= |w| - 2 ==> o.k0 == w[o.used - 1] as int
  {
    hide *;
    o := o0.(len := 3);
    var k1, tPos := NextByte(r, o, w);
    o := o.(used := o.used + 1, tPos := tPos);
    if o.used != nblockPP {
      if k1 as int != o.k0 {
        o := o.(k0 := k1 as int);
      } else {
        k1, tPos := NextByte(r, o, w);
        o := o.(used := o.used + 1, tPos := tPos, len := k1 as int + 4);
        k1, tPos := NextByte(r, o, w);
        o := o.(used := o.used + 1, tPos := tPos, k0 := k1 as int);
      }
    }
  }

  /** The same without the jump: the end of the block is tested before the byte is compared. */
  method NewRunSmall(r: BlockReader, o0: OutState, nblockPP: int, ghost w: seq<byte>) returns (o: OutState)
    requires Walking(r, w, o0) && nblockPP == |w| - 1 && o0.used < nblockPP && o0.len == 0
    ensures Walking(r, w, o) && o.crc == o0.crc && o.len >= 1 && o.used > o0.used && Rest(w, o) == Rest(w, o0)
  {
    hide *;
    WalkingAt(r, w, o0);
    RunCases(w, o0.used - 1);
    o := o0.(len := 1, ch := o0.k0);
    var k1, tPos := NextByte(r, o, w);
    o := o.(used := o.used + 1, tPos := tPos);
    if o.used != nblockPP {
      if k1 as int != o.k0 {
        o := o.(k0 := k1 as int);
      } else {
        o := o.(len := 2);
        k1, tPos := NextByte(r, o, w);
        o := o.(used := o.used + 1, tPos := tPos);
        if o.used != nblockPP {
          if k1 as int != o.k0 {
            o := o.(k0 := k1 as int);
          } else {
            o := ThirdAndOn(r, o, nblockPP, w);
          }
        }
      }
    }
    RunStep(w, o0, o);
    WalkingIs(r, w, o);
  }

  lemma RunCases(w: seq<byte>, m: int)
    requires 3 <= |w| && 0 <= m < |w| - 2
    ensures var n := |w| - 2;
            RunAt(w, n, m) ==
              if m + 1 == n || w[m + 1] != w[m] then (1, m + 1)
              else if m + 2 == n || w[m + 2] != w[m] then (2, m + 2)
              else if m + 3 == n || w[m + 3] != w[m] then (3, m + 3)
              else (w[m + 4] as int + 4, m + 5)
  {
  }

  lemma WalkingAt(r: BlockReader, w: seq<byte>, o: OutState)
    requires Walking(r, w, o)
    ensures Yields(r, w) && 3 <= |w| && 1 <= o.used <= |w| && 0 <= r.origPtr < |r.t| && IsPerm(r.t, |r.t|)
            && r.At(o.tPos, o.used)
    ensures o.used <= |w| - 2 ==> o.k0 == w[o.used - 1] as int
  {
  }

  lemma WalkingIs(r: BlockReader, w: seq<byte>, o: OutState)
    requires Yields(r, w) && 1 <= o.used <= |w| && 0 <= r.origPtr < |r.t| && IsPerm(r.t, |r.t|) && r.At(o.tPos, o.used)
    requires o.used <= |w| - 2 ==> o.k0 == w[o.used - 1] as int
    ensures Walking(r, w, o)
  {
  }

  // ------------------------------------------------------------ giving out

  /** `out` has been given out since `o0`; its bytes went into the CRC. */
  ghost predicate GivenText(table: seq<word>, w: seq<byte>, o0: OutState, o: OutState, out: seq<byte>)
    requires |table| == 256
  {
    && 3 <= |w| && 1 <= o0.used <= |w| && 1 <= o.used <= |w|
    && Rest(w, o0).text == out + Rest(w, o).text && Rest(w, o0).corrupt == Rest(w, o).corrupt
    && o.crc == CrcFrom(table, o0.crc, out)
  }

  ghost predicate Given(r: BlockReader, table: seq<word>, w: seq<byte>, o0: OutState, o: OutState, out: seq<byte>)
    requires |table| == 256
    reads r.tt, r.ll16, r.ll4, r.cftab
  {
    Walking(r, w, o0) && Walking(r, w, o) && GivenText(table, w, o0, o, out)
  }

  lemma Bounds(r: BlockReader, w: seq<byte>, o: OutState)
    requires Walking(r, w, o)
    ensures 3 <= |w| && 1 <= o.used <= |w|
  {
  }

  lemma GivenNone(r: BlockReader, table: seq<word>, w: seq<byte>, o: OutState)
    requires |table| == 256 && Walking(r, w, o)
    ensures Given(r, table, w, o, o, [])
  {
    Bounds(r, w, o);
    hide Walking, Rest;
    var t := Rest(w, o).text;
    assert t == [] + t;
  }

  lemma SameWalk(r: BlockReader, w: seq<byte>, o: OutState, o': OutState)
    requires Walking(r, w, o) && o'.used == o.used && o'.tPos == o.tPos && o'.k0 == o.k0
    ensures Walking(r, w, o')
  {
    hide Yields;
  }

  lemma RestOne(w: seq<byte>, o: OutState, o': OutState)
    requires 3 <= |w| && 1 <= o.used <= |w| && o.len > 0 && o'.used == o.used && o'.ch == o.ch && o'.len == o.len - 1
    ensures Rest(w, o) == Spelling([o.ch] + Rest(w, o').text, Rest(w, o').corrupt)
  {
    hide Expand, Copies;
    OneCopy(o.ch, o.len, Expand(w, |w| - 2, o.used - 1).text);
  }

  lemma CrcOne(table: seq<word>, crc: word, out: seq<byte>, c: byte)
    requires |table| == 256
    ensures CrcFrom(table, crc, out + [c]) == UpdateCrc(table, CrcFrom(table, crc, out), c)
  {
    assert (out + [c])[..|out|] == out;
  }

  lemma GivenTextOne(table: seq<word>, w: seq<byte>, o0: OutState, o: OutState, o': OutState, out: seq<byte>)
    requires |table| == 256 && GivenText(table, w, o0, o, out) && o.len > 0
    requires o' == o.(len := o.len - 1, crc := UpdateCrc(table, o.crc, o.ch))
    ensures GivenText(table, w, o0, o', out + [o.ch])
  {
    hide UpdateCrc, Rest, CrcFrom;
    RestOne(w, o, o');
    CrcOne(table, o0.crc, out, o.ch);
    var t := Rest(w, o').text;
    assert out + ([o.ch] + t) == out + [o.ch] + t;
  }

  lemma GivenOne(r: BlockReader, table: seq<word>, w: seq<byte>, o0: OutState, o: OutState, out: seq<byte>)
    requires |table| == 256 && Given(r, table, w, o0, o, out) && o.len > 0
    ensures Given(r, table, w, o0, o.(len := o.len - 1, crc := UpdateCrc(table, o.crc, o.ch)), out + [o.ch])
  {
    hide UpdateCrc, Walking, GivenText;
    var o' := o.(len := o.len - 1, crc := UpdateCrc(table, o.crc, o.ch));
    SameWalk(r, w, o, o');
    GivenTextOne(table, w, o0, o, o', out);
  }

  lemma OneCopy(c: byte, n: nat, e: seq<byte>)
    requires n > 0
    ensures Copies(c, n) + e == [c] + (Copies(c, n - 1) + e)
  {
  }

  lemma GivenRun(r: BlockReader, table: seq<word>, w: seq<byte>, o0: OutState, o: OutState, o': OutState,
      out: seq<byte>)
    requires |table| == 256 && Given(r, table, w, o0, o, out) && Walking(r, w, o') && o'.crc == o.crc
             && Rest(w, o') == Rest(w, o)
    ensures Given(r, table, w, o0, o', out)
  {
    Bounds(r, w, o');
    hide Walking, Rest;
  }

  lemma GivenSizes(r: BlockReader, table: seq<word>, w: seq<byte>, o0: OutState, o: OutState, out: seq<byte>)
    requires |table| == 256 && Given(r, table, w, o0, o, out)
    ensures Walking(r, w, o) && 3 <= |w| && 1 <= o.used <= |w|
  {
  }

  /** All given out, and the block over or broken off. */
  lemma GivenAll(r: BlockReader, table: seq<word>, w: seq<byte>, o0: OutState, o: OutState, out: seq<byte>)
    requires |table| == 256 && Given(r, table, w, o0, o, out) && o.len == 0 && o.used >= |w| - 1
    ensures 3 <= |w| && 1 <= o0.used <= |w| && Rest(w, o0) == Spelling(out, o.used > |w| - 1)
  {
    assert Copies(o.ch, 0) + [] == [];
    assert out + [] == out;
  }

  /** A run that is not finished has bytes still to come. */
  lemma GivenShort(r: BlockReader, table: seq<word>, w: seq<byte>, o0: OutState, o: OutState, out: seq<byte>)
    requires |table| == 256 && Given(r, table, w, o0, o, out)
    ensures 3 <= |w| && 1 <= o0.used <= |w|
    ensures o.len > 0 ==> |Rest(w, o0).text| > |out|
    ensures o.used == |w| - 1 ==> !Rest(w, o0).corrupt
  {
    hide Walking;
    var t := Copies(o.ch, o.len) + Expand(w, |w| - 2, o.used - 1).text;
    assert Rest(w, o).text == t;
  }

  /** A block that breaks off does so inside a run, which has bytes of its own. */
  lemma BrokenHasText(w: seq<byte>, o: OutState)
    requires 3 <= |w| && 1 <= o.used <= |w| && (o.used <= |w| - 1 || o.len > 0) && Rest(w, o).corrupt
    ensures Rest(w, o).text != []
  {
    hide RunAt;
  }

  /** The run under way, as far as there is room. The byte count left at the jump target is never read again. */
  method FinishRunFast(r: BlockReader, table: seq<word>, o1: OutState, avail1: nat, out1: seq<byte>, ghost w: seq<byte>,
      ghost o0: OutState)
    returns (o: OutState, avail: nat, out: seq<byte>)
    requires |table| == 256 && Given(r, table, w, o0, o1, out1) && o1.len > 0
    ensures Given(r, table, w, o0, o, out) && o.used == o1.used && (o.len > 0 ==> avail == 0)
    ensures |out| + avail == |out1| + avail1 && out1 <= out
  {
    hide *;
    o, avail, out := o1, avail1, out1;
    while true
      invariant Given(r, table, w, o0, o, out) && o.len > 0 && o.used == o1.used && |out| + avail == |out1| + avail1
                && out1 <= out
      decreases o.len
    {
      if avail == 0 { return; }
      if o.len == 1 { break; }
      GivenOne(r, table, w, o0, o, out);
      out, avail := out + [o.ch], avail - 1;
      o := o.(len := o.len - 1, crc := UpdateCrc(table, o.crc, o.ch));
    }
    GivenOne(r, table, w, o0, o, out);
    out, avail := out + [o.ch], avail - 1;
    o := o.(len := 0, crc := UpdateCrc(table, o.crc, o.ch));
  }

  /**
   * `unRLE_obuf_to_output_FAST`, on copies of the fields. When the block turns out to break off inside a run the
   * function returns at once and saves none of them: the bytes already stored in the caller's buffer (`lost`) are
   * not reflected in the stream's counters. That happens just when the rest of the block fits the room and is not
   * whole.
   */
  method UnRleFast(r: BlockReader, table: seq<word>, o0: OutState, avail0: nat, nblockPP: int, ghost w: seq<byte>)
    returns (corrupt: bool, o: OutState, avail: nat, out: seq<byte>, ghost lost: seq<byte>)
    requires |table| == 256 && Walking(r, w, o0) && nblockPP == |w| - 1
    ensures !corrupt ==> Given(r, table, w, o0, o, out) && lost == [] && |out| + avail == avail0
    ensures !corrupt ==> (avail == 0 && o.len > 0) || (o.used == nblockPP && o.len == 0)
    ensures corrupt ==> o == o0 && avail == avail0 && out == [] && |lost| <= avail0
    ensures 3 <= |w| && 1 <= o0.used <= |w| && (corrupt <==> Rest(w, o0).corrupt && |Rest(w, o0).text| <= avail0)
    ensures corrupt ==> Rest(w, o0) == Spelling(lost, true) && (o0.used <= nblockPP || o0.len > 0 ==> lost != [])
  {
    hide *;
    corrupt, lost := false, [];
    o, avail, out := o0, avail0, [];
    GivenNone(r, table, w, o0);
    while true
      invariant Given(r, table, w, o0, o, out) && |out| + avail == avail0 && !corrupt && lost == []
      decreases |w| - o.used
    {
      if o.len > 0 {
        o, avail, out := FinishRunFast(r, table, o, avail, out, w, o0);
        GivenShort(r, table, w, o0, o, out);
        if o.len > 0 { return; }
      }
      GivenSizes(r, table, w, o0, o, out);
      GivenShort(r, table, w, o0, o, out);
      if o.used > nblockPP {
        GivenAll(r, table, w, o0, o, out);
        lost := out;
        if o0.used <= nblockPP || o0.len > 0 { BrokenHasText(w, o0); }
        corrupt, o, avail, out := true, o0, avail0, [];
        return;
      }
      if o.used == nblockPP { return; }
      ghost var before := o;
      o := NewRunFast(r, o, nblockPP, w);
      GivenRun(r, table, w, o0, before, o, out);
      GivenSizes(r, table, w, o0, o, out);
    }
  }

  /** `unRLE_obuf_to_output_SMALL`, on the fields themselves: nothing is lost when the block breaks off. */
  method UnRleSmall(r: BlockReader, table: seq<word>, o0: OutState, avail0: nat, nblockPP: int, ghost w: seq<byte>)
    returns (corrupt: bool, o: OutState, avail: nat, out: seq<byte>)
    requires |table| == 256 && Walking(r, w, o0) && nblockPP == |w| - 1
    ensures Given(r, table, w, o0, o, out) && |out| + avail == avail0
    ensures !corrupt ==> avail == 0 || (o.used == nblockPP && o.len == 0)
    ensures corrupt ==> 3 <= |w| && 1 <= o0.used <= |w| && Rest(w, o0) == Spelling(out, true)
  {
    hide *;
    corrupt := false;
    o, avail, out := o0, avail0, [];
    GivenNone(r, table, w, o0);
    GivenSizes(r, table, w, o0, o, out);
    while true
      invariant Given(r, table, w, o0, o, out) && |out| + avail == avail0 && !corrupt && 1 <= o.used <= |w|
      decreases |w| - o.used
    {
      ghost var used := o.used;
      while true
        invariant Given(r, table, w, o0, o, out) && |out| + avail == avail0 && !corrupt && o.used == used
        decreases o.len
      {
        if avail == 0 { return; }
        if o.len == 0 { break; }
        GivenOne(r, table, w, o0, o, out);
        out, avail := out + [o.ch], avail - 1;
        o := o.(len := o.len - 1, crc := UpdateCrc(table, o.crc, o.ch));
      }
      GivenSizes(r, table, w, o0, o, out);
      if o.used == nblockPP { return; }
      if o.used > nblockPP {
        GivenAll(r, table, w, o0, o, out);
        corrupt := true;
        return;
      }
      ghost var before := o;
      o := NewRunSmall(r, o, nblockPP, w);
      GivenRun(r, table, w, o0, before, o, out);
      GivenSizes(r, table, w, o0, o, out);
    }
  }
}
