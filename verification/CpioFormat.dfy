/**
 * The archive as other programs see it: the "newc" format written out character by character, apart from the loader.
 */
module CpioFormat {
  import opened Base
  import opened Names
  import opened Cpio

  // ------------------------------------------------------------ digits

  /** The digits in both cases, and nothing else, have a value. */
  lemma DigitValues(c: char, d: nat)
    ensures DigitValue(c) == Some(d) <==> d < 16 && (c == "0123456789abcdef"[d] || c == "0123456789ABCDEF"[d])
  {
  }

  /** Reading goes by place: what comes first counts sixteen times as much with every digit that follows. */
  lemma {:induction false} HexJoined(s: string, t: string)
    ensures HexValue(s + t).Some? <==> HexValue(s).Some? && HexValue(t).Some?
    ensures HexValue(s + t).Some? ==> HexValue(s + t).value == HexValue(s).value * Pow2(4 * |t|) + HexValue(t).value
    decreases |t|
  {
    if t == [] {
      assert s + t == s && Pow2(0) == 1;
    } else {
      var t' := t[..|t| - 1];
      HexJoined(s, t');
      SixteenTimes(|t'|);
      assert (s + t)[..|s + t| - 1] == s + t' && (s + t)[|s + t| - 1] == t[|t| - 1];
      if HexValue(s + t).Some? { Sixteenfold(HexValue(s).value, Pow2(4 * |t'|)); }
    }
  }

  lemma Sixteenfold(v: nat, p: nat)
    ensures 16 * (v * p) == v * (16 * p)
  {
  }

  ghost predicate LowerHex(s: string) {
    forall i :: 0 <= i < |s| ==> '0' <= s[i] <= '9' || 'a' <= s[i] <= 'f'
  }

  /** `%08x`: small letters, and of a number that is too long the last digits. */
  lemma {:induction false} HexPrints(v: nat, n: nat)
    ensures LowerHex(Hex(v, n)) && HexValue(Hex(v, n)) == Some(v % Pow2(4 * n))
  {
    hide *;
    if n == 0 {
      HexNone(v);
    } else {
      HexPrints(v / 16, n - 1);
      SixteenTimes(n - 1);
      LowDigits(v, Pow2(4 * (n - 1)));
      HexLast(Hex(v / 16, n - 1), v / 16 % Pow2(4 * (n - 1)), v % 16);
      HexStep(v, n);
      LowerLast(Hex(v / 16, n - 1), Digit(v % 16));
    }
  }

  lemma HexNone(v: nat)
    ensures Hex(v, 0) == "" && HexValue("") == Some(0) && Pow2(4 * 0) == 1 && LowerHex("")
  {
  }

  lemma LowerLast(s: string, c: char)
    requires LowerHex(s) && ('0' <= c <= '9' || 'a' <= c <= 'f')
    ensures LowerHex(s + [c])
  {
  }

  lemma HexStep(v: nat, n: nat)
    requires n > 0
    ensures Hex(v, n) == Hex(v / 16, n - 1) + [Digit(v % 16)]
    ensures '0' <= Digit(v % 16) <= '9' || 'a' <= Digit(v % 16) <= 'f'
  {
  }

  lemma LowDigits(v: nat, p: nat)
    requires p >= 1
    ensures 16 * (v / 16 % p) + v % 16 == v % (16 * p)
  {
    var (q, r) := (v / 16 / p, 16 * (v / 16 % p) + v % 16);
    Sixteenfold(q, p);
    assert v / 16 == q * p + v / 16 % p;
    QuotientIs(v, q, 16 * p, r);
  }

  // ------------------------------------------------------------ one record

  /** Eight small hexadecimal digits that spell a number of thirty-two bits. */
  ghost predicate Number(a: string, p: nat, v: nat) {
    p + 8 <= |a| && LowerHex(a[p..p + 8]) && HexValue(a[p..p + 8]) == Some(v % 0x1_0000_0000)
  }

  /** The thirteen numbers of a header: one link, no times, no devices, no check. */
  ghost function Numbers(ino: nat, name: string, e: Entry): (n: seq<nat>)
    ensures |n| == 13
  {
    [ino, e.mode, e.uid, e.gid, 1, 0, |e.data|, 0, 0, 0, 0, |name| + 1, 0]
  }

  ghost function RoundUp(p: nat): nat {
    (p + 3) / 4 * 4
  }

  ghost predicate Nuls(a: string, p: nat, q: nat) {
    p <= q <= |a| && forall i :: p <= i < q ==> a[i] == '\0'
  }

  /** From `p` to `q`: magic, numbers, name and NUL, data, everything aligned to four characters by NULs. */
  ghost predicate RecordAt(a: string, p: nat, q: nat, ino: nat, name: string, e: Entry) {
    var d := p + 110 + |name|;
    var b := RoundUp(d + 1);
    && p % 4 == 0 && q == RoundUp(b + |e.data|) <= |a|
    && a[p..p + 6] == "070701" && (forall j :: 0 <= j < 13 ==> Number(a, p + 6 + 8 * j, Numbers(ino, name, e)[j]))
    && a[p + 110..d] == name && Nuls(a, d, b) && a[b..b + |e.data|] == e.data && Nuls(a, b + |e.data|, q)
  }

  lemma Aligned(p: nat)
    ensures Align(p) == RoundUp(p)
  {
  }

  lemma Inner(a: string, p: nat, q: nat, i: nat, k: nat)
    requires p <= q <= |a| && i <= k <= q - p
    ensures a[p..q][i..k] == a[p + i..p + k]
  {
    forall x | 0 <= x < k - i ensures a[p..q][i..k][x] == a[p + i..p + k][x] {}
  }

  lemma NumberStands(a: string, p: nat, h: string, f: seq<string>, j: nat, v: nat)
    requires p + |h| <= |a| && a[p..p + |h|] == h && |f| == 13 && j < 13
    requires (forall k :: 0 <= k < 13 ==> |f[k]| == 8) && h == "070701" + Joined(f) && f[j] == Hex(v, 8)
    ensures Number(a, p + 6 + 8 * j, v)
  {
    FieldAt(f, j);
    AfterMagic(Joined(f), 8 * j, 8 * j + 8);
    hide HexValue, Hex, Joined;
    Pow2Values();
    HexPrints(v, 8);
    Inner(a, p, p + |h|, 6 + 8 * j, 14 + 8 * j);
  }

  /** A record that has been written stands in the archive as the format says. */
  lemma RecordStands(a: string, p: nat, ino: nat, name: string, e: Entry, rest: string)
    requires p % 4 == 0 && p <= |a| && a[p..] == Record(name, e, ino, p) + rest
    ensures RecordAt(a, p, p + |Record(name, e, ino, p)|, ino, name, e)
  {
    hide *;
    var head := Head(name, e, ino, p);
    var b := p + |head|;
    RecordIs(name, e, ino, p);
    Assoc(head, Body(e, b), rest);
    Slices(a, p, head, Body(e, b) + rest);
    HeadStands(a, p, ino, name, e);
    BodyStands(a, b, e, rest);
    RecordSize(p, ino, name, e);
    RecordMade(a, p, p + |Record(name, e, ino, p)|, ino, name, e);
  }

  lemma RecordSize(p: nat, ino: nat, name: string, e: Entry)
    ensures p + |Head(name, e, ino, p)| == RoundUp(p + 110 + |name| + 1)
  {
    hide Head, RoundUp, Align;
    Aligned(p + 110 + |name| + 1);
  }

  ghost predicate HeadAt(a: string, p: nat, ino: nat, name: string, e: Entry) {
    && RoundUp(p + 110 + |name| + 1) <= |a| && a[p..p + 6] == "070701"
    && (forall j :: 0 <= j < 13 ==> Number(a, p + 6 + 8 * j, Numbers(ino, name, e)[j]))
    && a[p + 110..p + 110 + |name|] == name && Nuls(a, p + 110 + |name|, RoundUp(p + 110 + |name| + 1))
  }

  ghost predicate BodyAt(a: string, b: nat, e: Entry) {
    RoundUp(b + |e.data|) <= |a| && a[b..b + |e.data|] == e.data && Nuls(a, b + |e.data|, RoundUp(b + |e.data|))
  }

  lemma RecordMade(a: string, p: nat, q: nat, ino: nat, name: string, e: Entry)
    requires p % 4 == 0 && HeadAt(a, p, ino, name, e) && BodyAt(a, RoundUp(p + 110 + |name| + 1), e)
    requires q == RoundUp(RoundUp(p + 110 + |name| + 1) + |e.data|)
    ensures RecordAt(a, p, q, ino, name, e)
  {
    hide Number, Numbers;
  }

  lemma HeadStands(a: string, p: nat, ino: nat, name: string, e: Entry)
    requires p + |Head(name, e, ino, p)| <= |a| && a[p..p + |Head(name, e, ino, p)|] == Head(name, e, ino, p)
    ensures HeadAt(a, p, ino, name, e)
  {
    hide *;
    var head := Head(name, e, ino, p);
    RecordSize(p, ino, name, e);
    HeadParts(p, ino, name, e);
    Inner(a, p, p + |head|, 0, 110);
    Inner(a, p, p + |head|, 110, 110 + |name|);
    HeaderStands(a, p, ino, e.mode, e.uid, e.gid, |e.data|, |name| + 1);
    forall j | 0 <= j < 13 ensures Number(a, p + 6 + 8 * j, Numbers(ino, name, e)[j]) {
      NumbersAre(ino, name, e);
    }
    forall i | p + 110 + |name| <= i < p + |head| ensures a[i] == '\0' {
      assert a[i] == a[p..p + |head|][i - p] == head[i - p];
    }
    HeadMade(a, p, ino, name, e);
  }

  lemma NumbersAre(ino: nat, name: string, e: Entry)
    ensures Numbers(ino, name, e) == [ino, e.mode, e.uid, e.gid, 1, 0, |e.data|, 0, 0, 0, 0, |name| + 1, 0]
  {
  }

  lemma HeadMade(a: string, p: nat, ino: nat, name: string, e: Entry)
    requires RoundUp(p + 110 + |name| + 1) <= |a| && p + 110 + |name| <= RoundUp(p + 110 + |name| + 1)
    requires a[p..p + 6] == "070701" && forall j :: 0 <= j < 13 ==> Number(a, p + 6 + 8 * j, Numbers(ino, name, e)[j])
    requires a[p + 110..p + 110 + |name|] == name
    requires forall i :: p + 110 + |name| <= i < RoundUp(p + 110 + |name| + 1) ==> a[i] == '\0'
    ensures HeadAt(a, p, ino, name, e)
  {
    hide Number, Numbers, RoundUp;
  }

  /** The parts of the head of a record. */
  lemma HeadParts(p: nat, ino: nat, name: string, e: Entry)
    ensures var head := Head(name, e, ino, p);
            && p + |head| == RoundUp(p + 110 + |name| + 1) >= p + 110 + |name| + 1
            && head[..110] == Header(ino, e.mode, e.uid, e.gid, |e.data|, |name| + 1)
            && head[110..110 + |name|] == name
            && forall i :: 110 + |name| <= i < |head| ==> head[i] == '\0'
  {
    hide Header;
    var h := Header(ino, e.mode, e.uid, e.gid, |e.data|, |name| + 1);
    var pad := Zeros(AlignOff(p + 110 + |name| + 1));
    assert Head(name, e, ino, p) == h + (name + ['\0'] + pad) && |h| == 110;
  }

  lemma HeaderStands(a: string, p: nat, ino: nat, mode: nat, uid: nat, gid: nat, size: nat, namesize: nat)
    requires p + 110 <= |a| && a[p..p + 110] == Header(ino, mode, uid, gid, size, namesize)
    ensures a[p..p + 6] == "070701"
    ensures forall j :: 0 <= j < 13 ==>
              Number(a, p + 6 + 8 * j, [ino, mode, uid, gid, 1, 0, size, 0, 0, 0, 0, namesize, 0][j])
  {
    var v := [ino, mode, uid, gid, 1, 0, size, 0, 0, 0, 0, namesize, 0];
    var h, f := Header(ino, mode, uid, gid, size, namesize), HeaderFields(ino, mode, uid, gid, size, namesize);
    HeaderIs(ino, mode, uid, gid, size, namesize);
    hide *;
    assert a[p..p + 110][..6] == a[p..p + 6];
    assert h[..6] == "070701";
    forall j | 0 <= j < 13 ensures Number(a, p + 6 + 8 * j, v[j]) { NumberStands(a, p, h, f, j, v[j]); }
  }

  lemma HeaderIs(ino: nat, mode: nat, uid: nat, gid: nat, size: nat, namesize: nat)
    ensures var (h, f) := (Header(ino, mode, uid, gid, size, namesize),
                           HeaderFields(ino, mode, uid, gid, size, namesize));
            && |h| == 110 && h == "070701" + Joined(f)
            && forall j :: 0 <= j < 13 ==>
                 f[j] == Hex([ino, mode, uid, gid, 1, 0, size, 0, 0, 0, 0, namesize, 0][j], 8)
  {
    hide Hex, Joined;
  }

  lemma BodyStands(a: string, b: nat, e: Entry, rest: string)
    requires b <= |a| && b % 4 == 0 && a[b..] == Body(e, b) + rest
    ensures BodyAt(a, b, e) && b + |Body(e, b)| == RoundUp(b + |e.data|)
  {
    hide *;
    var z := Zeros(AlignOff(b + |e.data|));
    Slices(a, b, Body(e, b), rest);
    BodyIs(e, b);
    if e.data != [] {
      Assoc(e.data, z, rest);
      Slices(a, b, e.data, z + rest);
      Slices(a, b + |e.data|, z, rest);
      NulsStand(a, b + |e.data|, z);
    }
    BodyMade(a, b, e);
  }

  lemma BodyIs(e: Entry, b: nat)
    requires b % 4 == 0
    ensures var z := Zeros(AlignOff(b + |e.data|));
            && z == Zeros(|z|) && b + |Body(e, b)| == RoundUp(b + |e.data|)
            && if e.data == [] then Body(e, b) == [] else Body(e, b) == e.data + z
  {
    Aligned(b + |e.data|);
  }

  lemma BodyMade(a: string, b: nat, e: Entry)
    requires b % 4 == 0 && b + |e.data| <= |a| && a[b..b + |e.data|] == e.data && RoundUp(b + |e.data|) <= |a|
    requires e.data != [] ==> Nuls(a, b + |e.data|, RoundUp(b + |e.data|))
    ensures BodyAt(a, b, e)
  {
  }

  lemma NulsStand(a: string, p: nat, z: string)
    requires p + |z| <= |a| && a[p..p + |z|] == z == Zeros(|z|)
    ensures Nuls(a, p, p + |z|)
  {
    forall i | p <= i < p + |z| ensures a[i] == '\0' {
      assert a[i] == a[p..p + |z|][i - p];
    }
  }

  // ------------------------------------------------------------ the whole archive

  /** The names of a map in increasing order, from a place of the walk on. */
  ghost predicate Listing(m: map<string, Entry>, it: Option<string>, names: seq<string>) {
    && (forall i, j :: 0 <= i < j < |names| ==> Less(names[i], names[j]))
    && forall k :: k in names <==> k in Ahead(m.Keys, it)
  }

  ghost predicate RecordsAt(a: string, m: map<string, Entry>, names: seq<string>, at: seq<nat>, ino: nat) {
    && |at| == |names| + 1
    && (forall i :: 0 <= i < |names| ==> names[i] in m && RecordAt(a, at[i], at[i + 1], ino + i, names[i], m[names[i]]))
    && RecordAt(a, at[|names|], |a|, ino + |names|, "TRAILER!!!", Entry(0x1ed, 0, 0, []))
  }

  lemma {:induction false} Layout(a: string, m: map<string, Entry>, it: Option<string>, ino: nat, p: nat)
    returns (names: seq<string>, at: seq<nat>)
    requires (it.Some? ==> it.value in m) && p % 4 == 0 && p <= |a| && a[p..] == Records(m, it, ino % 0x1_0000_0000, p)
    ensures Listing(m, it, names) && RecordsAt(a, m, names, at, ino) && at[0] == p
    decreases Ahead(m.Keys, it)
  {
    hide Record, RecordAt;
    if it.None? {
      names, at := [], [p];
      RecordsEnd(m, ino % 0x1_0000_0000, p);
      var r := Record(TRAILER, END, ino % 0x1_0000_0000, p);
      assert a[p..] == r + [];
      RecordStands(a, p, ino % 0x1_0000_0000, TRAILER, END, []);
      SameNumber(a, p, |a|, ino, TRAILER, END);
    } else {
      var k := it.value;
      WalkSteps(m.Keys, k);
      var (next, i) := (Next(m.Keys, k), ino % 0x1_0000_0000);
      var r := Record(k, m[k], i, p);
      RecordStands(a, p, i, k, m[k], Records(m, next, (i + 1) % 0x1_0000_0000, p + |r|));
      SameNumber(a, p, p + |r|, ino, k, m[k]);
      Slices(a, p, r, Records(m, next, (i + 1) % 0x1_0000_0000, p + |r|));
      RecordEnds(a, p, p + |r|, i, k, m[k]);
      var n, t := Layout(a, m, next, ino + 1, p + |r|);
      names, at := [k] + n, [p] + t;
      ListingGrows(m, k, n);
      forall j | 0 <= j < |names|
        ensures names[j] in m && RecordAt(a, at[j], at[j + 1], ino + j, names[j], m[names[j]])
      {
        if j > 0 { assert names[j] == n[j - 1] && at[j] == t[j - 1] && at[j + 1] == t[j]; }
      }
    }
  }

  lemma ListingGrows(m: map<string, Entry>, k: string, n: seq<string>)
    requires k in m && Listing(m, Next(m.Keys, k), n)
    ensures Listing(m, Some(k), [k] + n)
  {
    var names := [k] + n;
    WalkSteps(m.Keys, k);
    forall j | 0 <= j < |n| ensures Less(k, n[j]) {
      assert n[j] in n;
      LessTotal(k, n[j]);
    }
    forall i, j | 0 <= i < j < |names| ensures Less(names[i], names[j]) {
      if i > 0 { assert names[i] == n[i - 1] && names[j] == n[j - 1]; }
    }
  }

  lemma SameNumber(a: string, p: nat, q: nat, ino: nat, name: string, e: Entry)
    requires RecordAt(a, p, q, ino % 0x1_0000_0000, name, e)
    ensures RecordAt(a, p, q, ino, name, e)
  {
    var (n, n') := (Numbers(ino, name, e), Numbers(ino % 0x1_0000_0000, name, e));
    hide HexValue, LowerHex, RoundUp, Nuls;
    forall j | 0 <= j < 13 ensures Number(a, p + 6 + 8 * j, n[j]) {
      assert Number(a, p + 6 + 8 * j, n'[j]) && n[j] % 0x1_0000_0000 == n'[j] % 0x1_0000_0000;
    }
  }

  lemma RecordEnds(a: string, p: nat, q: nat, ino: nat, name: string, e: Entry)
    requires RecordAt(a, p, q, ino, name, e)
    ensures q % 4 == 0
  {
    hide Number, Numbers, Nuls;
  }

  /**
   * What `cpio::dump` writes: the records of all entries in increasing order of names, their numbers counting up from
   * 300000, and the trailer, and nothing between them.
   */
  lemma ArchiveFormat(m: map<string, Entry>) returns (names: seq<string>, at: seq<nat>)
    ensures |names| == |m| && (forall k :: k in names <==> k in m)
    ensures forall i, j :: 0 <= i < j < |names| ==> Less(names[i], names[j])
    ensures RecordsAt(Archive(m), m, names, at, 300000) && at[0] == 0
  {
    WalkStarts(m.Keys);
    ArchiveWalk(m);
    hide Archive, Records, RecordAt, Less, First;
    var a := Archive(m);
    names, at := Layout(a, m, First(m.Keys), 300000, 0);
    hide RecordsAt;
    forall i, j | 0 <= i < j < |names| ensures names[i] != names[j] { LessTotal(names[i], names[j]); }
    SizeOf(names, m.Keys);
  }

  lemma ArchiveWalk(m: map<string, Entry>)
    ensures Archive(m)[0..] == Records(m, First(m.Keys), 300000, 0)
  {
    hide Records, First;
    assert Archive(m)[0..] == Archive(m);
  }

  lemma {:induction false} SizeOf(names: seq<string>, s: set<string>)
    requires (forall i, j :: 0 <= i < j < |names| ==> names[i] != names[j]) && forall k :: k in names <==> k in s
    ensures |names| == |s|
  {
    if names != [] {
      var (x, t) := (names[|names| - 1], names[..|names| - 1]);
      assert names == t + [x];
      SizeOf(t, s - {x});
    } else {
      forall k ensures k !in s { assert k in names <==> k in s; }
    }
  }

  /** The archive of no entries, in full. */
  lemma EmptyArchive()
    ensures Archive(map[]) ==
            "070701" + ("000493e0" + "000001ed" + "00000000" + "00000000" + "00000001" + "00000000" + "00000000"
                        + "00000000" + "00000000" + "00000000" + "00000000" + "0000000b" + "00000000")
            + ("TRAILER!!!" + "\0\0\0\0")
  {
    hide *;
    EmptyDigits();
    HeaderIs(300000, 0x1ed, 0, 0, 0, 11);
    JoinedAll(HeaderFields(300000, 0x1ed, 0, 0, 0, 11));
    OnlyTrailer();
  }

  lemma OnlyTrailer()
    ensures Archive(map[]) == Header(300000, 0x1ed, 0, 0, 0, 11) + ("TRAILER!!!" + "\0\0\0\0")
  {
    hide Header;
    RecordsEnd(map[], 300000, 0);
    var h := Header(300000, 0x1ed, 0, 0, 0, 11);
    assert Zeros(3) == "\0\0\0";
    assert Head("TRAILER!!!", END, 300000, 0) == h + ("TRAILER!!!" + ['\0'] + Zeros(3));
    assert "TRAILER!!!" + ['\0'] + Zeros(3) == "TRAILER!!!" + "\0\0\0\0";
  }

  lemma EmptyDigits()
    ensures Hex(300000, 8) == "000493e0" && Hex(0x1ed, 8) == "000001ed" && Hex(11, 8) == "0000000b"
    ensures Hex(0, 8) == "00000000" && Hex(1, 8) == "00000001"
  {
    hide *;
    HexNought(5);
    HexNought(7);
    HexNought(8);
    NextDigit(1, 6);
    NextDigit(30, 7);
    NextDigit(0x1ed, 8);
    NextDigit(11, 8);
    NextDigit(1, 8);
    FirstInode();
  }

  lemma FirstInode()
    ensures Hex(300000, 8) == "000493e0"
  {
    hide *;
    HexNought(3);
    NextDigit(4, 4);
    NextDigit(73, 5);
    NextDigit(1171, 6);
    NextDigit(18750, 7);
    NextDigit(300000, 8);
  }

  lemma NextDigit(v: nat, n: nat)
    requires n > 0
    ensures Hex(v, n) == Hex(v / 16, n - 1) + ["0123456789abcdef"[v % 16]]
  {
  }

  lemma {:induction false} HexNought(n: nat)
    requires n <= 8
    ensures Hex(0, n) == "00000000"[..n]
  {
    if n > 0 { HexNought(n - 1); }
  }

  lemma JoinedAll(f: seq<string>)
    requires |f| == 13 && forall i :: 0 <= i < 13 ==> |f[i]| == 8
    ensures Joined(f) == f[0] + f[1] + f[2] + f[3] + f[4] + f[5] + f[6] + f[7] + f[8] + f[9] + f[10] + f[11] + f[12]
  {
    var r := f[0] + f[1] + f[2] + f[3] + f[4] + f[5] + f[6] + f[7] + f[8] + f[9] + f[10] + f[11] + f[12];
    forall i | 0 <= i < 104 ensures Joined(f)[i] == r[i] {
      FieldAt(f, i / 8);
      assert Joined(f)[8 * (i / 8)..8 * (i / 8) + 8][i % 8] == f[i / 8][i % 8];
    }
  }
}
