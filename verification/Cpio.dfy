/**
 * Archives in the "newc" format: a map of named entries written out as a stream of aligned records, and read back.
 * Bytes are characters here.
 */
module Cpio {
  import opened Base
  import opened Names

  type word = x: int | 0 <= x < 0x1_0000_0000

  datatype Entry = Entry(mode: word, uid: word, gid: word, data: string)

  const TRAILER := "TRAILER!!!"
  const HEADER_SIZE := 110
  const FIRST_INODE := 300000

  // ------------------------------------------------------------ hexadecimal fields

  function Digit(d: int): char
    requires 0 <= d < 16
  {
    "0123456789abcdef"[d]
  }

  /** The last `n` hexadecimal digits of a number; `%08x` for n = 8 and a number of 32 bits. */
  function Hex(v: nat, n: nat): (s: string)
    ensures |s| == n
  {
    if n == 0 then [] else Hex(v / 16, n - 1) + [Digit(v % 16)]
  }

  function DigitValue(c: char): (d: Option<nat>)
    ensures d.Some? ==> d.value < 16
  {
    if '0' <= c <= '9' then Some(c as int - '0' as int)
    else if 'a' <= c <= 'f' then Some(c as int - 'a' as int + 10)
    else if 'A' <= c <= 'F' then Some(c as int - 'A' as int + 10)
    else None
  }

  /** The number that digits spell; None where there is another character among them. */
  function HexValue(s: string): (r: Option<nat>)
    ensures r.Some? ==> r.value < Pow2(4 * |s|)
  {
    if s == [] then Some(0)
    else
      SixteenTimes(|s| - 1);
      match (HexValue(s[..|s| - 1]), DigitValue(s[|s| - 1]))
      case (Some(v), Some(d)) => Some(16 * v + d)
      case _ => None
  }

  lemma SixteenTimes(n: nat)
    ensures Pow2(4 * (n + 1)) == 16 * Pow2(4 * n)
  {
    Pow2Add(4 * n, 4);
    assert Pow2(4) == 16;
  }

  lemma {:induction false} HexReads(v: nat, n: nat)
    requires v < Pow2(4 * n)
    ensures HexValue(Hex(v, n)) == Some(v)
  {
    if n > 0 {
      SixteenTimes(n - 1);
      HexReads(v / 16, n - 1);
      HexLast(Hex(v / 16, n - 1), v / 16, v % 16);
    }
  }

  lemma HexLast(s: string, v: nat, d: int)
    requires HexValue(s) == Some(v) && 0 <= d < 16
    ensures HexValue(s + [Digit(d)]) == Some(16 * v + d)
  {
    assert (s + [Digit(d)])[..|s|] == s;
  }

  lemma {:induction false} ZeroFirst(s: string)
    requires s != [] && s[0] == '0'
    ensures HexValue(s) == HexValue(s[1..])
    decreases |s|
  {
    if |s| > 1 {
      var t := s[..|s| - 1];
      ZeroFirst(t);
      assert s[1..][..|s| - 2] == t[1..];
    } else {
      assert s[..0] == [] && s[1..] == [];
    }
  }

  /** `x8u`: leading zeros are skipped by hand, the rest goes to `sscanf`; None where that meets anything but digits. */
  method X8u(s: string) returns (v: Option<nat>)
    requires |s| == 8
    ensures v == HexValue(s)
  {
    var hex := s;
    while |hex| > 0 && hex[0] == '0'
      invariant HexValue(hex) == HexValue(s)
      decreases |hex|
    {
      ZeroFirst(hex);
      hex := hex[1..];
      if |hex| == 0 { return Some(0); }
    }
    v := HexValue(hex);
  }

  // ------------------------------------------------------------ writing

  function AlignOff(p: nat): (k: nat)
    ensures k < 4 && (p + k) % 4 == 0
  {
    (4 - p % 4) % 4
  }

  function Align(p: nat): nat {
    p + AlignOff(p)
  }

  function Zeros(n: nat): (z: string)
    ensures |z| == n
  {
    seq(n, _ => '\0')
  }

  /** Fields of eight characters, one after another. */
  function Joined(fields: seq<string>): (r: string)
    requires forall i :: 0 <= i < |fields| ==> |fields[i]| == 8
    ensures |r| == 8 * |fields|
  {
    if fields == [] then [] else Joined(fields[..|fields| - 1]) + fields[|fields| - 1]
  }

  lemma {:induction false} FieldAt(fields: seq<string>, i: nat)
    requires (forall k :: 0 <= k < |fields| ==> |fields[k]| == 8) && i < |fields|
    ensures Joined(fields)[8 * i..8 * i + 8] == fields[i]
    decreases |fields|
  {
    if i < |fields| - 1 {
      var t := fields[..|fields| - 1];
      FieldAt(t, i);
      assert Joined(fields)[8 * i..8 * i + 8] == Joined(t)[8 * i..8 * i + 8];
    }
  }

  function Header(ino: nat, mode: nat, uid: nat, gid: nat, filesize: nat, namesize: nat): (h: string)
    ensures |h| == HEADER_SIZE
  {
    "070701" + Joined(HeaderFields(ino, mode, uid, gid, filesize, namesize))
  }

  function HeaderFields(ino: nat, mode: nat, uid: nat, gid: nat, filesize: nat, namesize: nat): (f: seq<string>)
    ensures |f| == 13 && forall i :: 0 <= i < 13 ==> |f[i]| == 8
  {
    [Hex(ino, 8), Hex(mode, 8), Hex(uid, 8), Hex(gid, 8), Hex(1, 8), Hex(0, 8), Hex(filesize, 8),
     Hex(0, 8), Hex(0, 8), Hex(0, 8), Hex(0, 8), Hex(namesize, 8), Hex(0, 8)]
  }

  /** Header and name, up to the alignment before the data. */
  function Head(name: string, e: Entry, ino: nat, pos: nat): (r: string)
    ensures pos + |r| == Align(pos + HEADER_SIZE + |name| + 1)
  {
    Header(ino, e.mode, e.uid, e.gid, |e.data|, |name| + 1)
        + (name + ['\0'] + Zeros(AlignOff(pos + HEADER_SIZE + |name| + 1)))
  }

  /** The data, if there are any, up to the alignment before the next header. */
  function Body(e: Entry, pos: nat): (r: string)
    ensures e.data == [] ==> r == []
    ensures e.data != [] ==> pos + |r| == Align(pos + |e.data|)
  {
    if e.data == [] then [] else e.data + Zeros(AlignOff(pos + |e.data|))
  }

  function Record(name: string, e: Entry, ino: nat, pos: nat): (r: string) {
    var h := Head(name, e, ino, pos);
    h + Body(e, pos + |h|)
  }

  const END := Entry(0x1ed, 0, 0, [])

  /** The records of the keys that a walk has still to visit, and the trailer. */
  ghost function Records(m: map<string, Entry>, it: Option<string>, ino: nat, pos: nat): string
    requires it.Some? ==> it.value in m
    decreases Ahead(m.Keys, it)
  {
    if it.None? then Record(TRAILER, END, ino, pos)
    else
      WalkSteps(m.Keys, it.value);
      var r := Record(it.value, m[it.value], ino, pos);
      r + Records(m, Next(m.Keys, it.value), (ino + 1) % 0x1_0000_0000, pos + |r|)
  }

  ghost function Archive(m: map<string, Entry>): string {
    Records(m, First(m.Keys), FIRST_INODE, 0)
  }

  /** `do_out` and `out_align`, for one record; the position counts what has been written. */
  method PutRecord(out0: string, name: string, e: Entry, ino: nat) returns (out: string)
    ensures out == out0 + Record(name, e, ino, |out0|)
  {
    hide Hex, Header;
    var h := Header(ino, e.mode, e.uid, e.gid, |e.data|, |name| + 1);
    out := out0 + h;
    out := out + (name + ['\0']);
    out := out + Zeros(AlignOff(|out|));
    assert out == out0 + Head(name, e, ino, |out0|);
    if |e.data| > 0 {
      ghost var out1 := out;
      out := out + e.data;
      out := out + Zeros(AlignOff(|out|));
      assert out == out1 + Body(e, |out1|);
    }
  }

  /** `cpio::dump`. */
  method Dump(entries: map<string, Entry>) returns (out: string)
    ensures out == Archive(entries)
  {
    out := [];
    var inode: nat := FIRST_INODE;
    hide *;
    var it := First(entries.Keys);
    ArchiveIs(entries);
    while it.Some?
      invariant it.Some? ==> it.value in entries
      invariant Archive(entries) == out + Records(entries, it, inode, |out|)
      decreases Ahead(entries.Keys, it)
    {
      WalkSteps(entries.Keys, it.value);
      RecordsStep(entries, it.value, inode, out);
      out := PutRecord(out, it.value, entries[it.value], inode);
      inode := (inode + 1) % 0x1_0000_0000;
      it := Next(entries.Keys, it.value);
    }
    RecordsEnd(entries, inode, |out|);
    out := PutRecord(out, TRAILER, END, inode);
  }

  lemma ArchiveIs(m: map<string, Entry>)
    ensures Archive(m) == [] + Records(m, First(m.Keys), FIRST_INODE, 0)
  {
    hide Records, First;
    assert [] + Archive(m) == Archive(m);
  }

  lemma RecordsStep(m: map<string, Entry>, k: string, ino: nat, out: string)
    requires k in m
    ensures Next(m.Keys, k).Some? ==> Next(m.Keys, k).value in m
    ensures var out1 := out + Record(k, m[k], ino, |out|);
            out + Records(m, Some(k), ino, |out|) == out1
                + Records(m, Next(m.Keys, k), (ino + 1) % 0x1_0000_0000, |out1|)
  {
    hide Record;
    WalkSteps(m.Keys, k);
    var r := Record(k, m[k], ino, |out|);
    Assoc(out, r, Records(m, Next(m.Keys, k), (ino + 1) % 0x1_0000_0000, |out| + |r|));
  }

  lemma RecordsEnd(m: map<string, Entry>, ino: nat, pos: nat)
    ensures Records(m, None, ino, pos) == Record(TRAILER, END, ino, pos)
  {
  }

  // ------------------------------------------------------------ reading

  datatype Fields = Fields(mode: word, uid: word, gid: word, filesize: word, namesize: word)

  /** The five fields of a header that are looked at. */
  function ParseHeader(h: string): Option<Fields>
    requires |h| == HEADER_SIZE
  {
    Pow2Values();
    match (HexValue(h[14..22]), HexValue(h[22..30]), HexValue(h[30..38]), HexValue(h[54..62]), HexValue(h[94..102]))
    case (Some(mode), Some(uid), Some(gid), Some(filesize),
        Some(namesize)) => Some(Fields(mode, uid, gid, filesize, namesize))
    case _ => None
  }

  /** The characters before the first NUL; None where there is no NUL. */
  function CString(t: string): (r: Option<string>)
    ensures r.Some? ==> |r.value| < |t|
  {
    if t == [] then None
    else if t[0] == '\0' then Some([])
    else
      match CString(t[1..])
      case None => None
      case Some(u) => Some([t[0]] + u)
  }

  /** One turn of the loading loop: on to another position, or an end. */
  datatype Turn = Go(pos: nat, acc: map<string, Entry>) | Stop(r: Option<map<string, Entry>>)

  /**
   * A record is taken in, or skipped, or is the trailer. None stands for a header with other characters than digits in
   * it, and for what the code does not define: everything that reads past the end of the buffer, and a name that is
   * there already, whose key in the map refers to the name in the entry that is then freed.
   */
  function TakeRecord(buf: string, pos: nat, acc: map<string, Entry>): (t: Turn)
    requires pos < |buf|
    ensures t.Go? ==> t.pos > pos
  {
    if pos + HEADER_SIZE > |buf| then Stop(None)
    else
      match (ParseHeader(buf[pos..pos + HEADER_SIZE]), CString(buf[pos + HEADER_SIZE..]))
      case (Some(f), Some(name)) => TakeEntry(buf, Align(pos + HEADER_SIZE + f.namesize), acc, f, name)
      case _ => Stop(None)
  }

  function TakeEntry(buf: string, p: nat, acc: map<string, Entry>, f: Fields, name: string): (t: Turn)
    ensures t.Go? ==> t.pos >= p
  {
    if name == "." || name == ".." then Go(p, acc)
    else if name == TRAILER then Stop(Some(acc))
    else if f.filesize > 0 && p + f.filesize > |buf| then Stop(None)
    else if name in acc then Stop(None)
    else Go(Align(p + f.filesize), acc[name := Entry(f.mode, f.uid, f.gid, Cut(buf, p, f.filesize))])
  }

  function Cut(buf: string, p: nat, n: nat): string
    requires n > 0 ==> p + n <= |buf|
  {
    if n == 0 then [] else buf[p..p + n]
  }

  function LoadFrom(buf: string, pos: nat, acc: map<string, Entry>): (r: Option<map<string, Entry>>)
    decreases |buf| - pos
  {
    if pos >= |buf| then Some(acc)
    else
      match TakeRecord(buf, pos, acc)
      case Go(p, a) => LoadFrom(buf, p, a)
      case Stop(r) => r
  }

  /** The body of the loop in `load_cpio`. */
  method ReadRecord(buf: string, pos0: nat, entries: map<string, Entry>) returns (t: Turn)
    requires pos0 < |buf|
    ensures t == TakeRecord(buf, pos0, entries)
  {
    hide HexValue, ParseHeader, CString, Align, Cut;
    var pos := pos0;
    if pos + HEADER_SIZE > |buf| { return Stop(None); }
    var header := buf[pos..pos + HEADER_SIZE];
    pos := pos + HEADER_SIZE;
    var f, name := ParseHeader(header), CString(buf[pos..]);
    if f.None? || name.None? { return Stop(None); }
    pos := Align(pos + f.value.namesize);
    if name.value == "." || name.value == ".." { return Go(pos, entries); }
    if name.value == TRAILER { return Stop(Some(entries)); }
    var n := f.value.filesize;
    if n > 0 && pos + n > |buf| { return Stop(None); }
    if name.value in entries { return Stop(None); }
    var e := Entry(f.value.mode, f.value.uid, f.value.gid, Cut(buf, pos, n));
    pos := pos + n;
    t := Go(Align(pos), entries[name.value := e]);
  }

  /** `load_cpio`. */
  method Load(buf: string) returns (r: Option<map<string, Entry>>)
    ensures r == LoadFrom(buf, 0, map[])
  {
    hide TakeRecord;
    var pos: nat := 0;
    var entries: map<string, Entry> := map[];
    while pos < |buf|
      invariant LoadFrom(buf, pos, entries) == LoadFrom(buf, 0, map[])
      decreases |buf| - pos
    {
      var t := ReadRecord(buf, pos, entries);
      match t {
        case Stop(end) => return end;
        case Go(p, a) => pos, entries := p, a;
      }
    }
    r := Some(entries);
  }

  // ------------------------------------------------------------ the round trip

  /** A name that the format can carry. */
  predicate Plain(name: string) {
    '\0' !in name && name != "." && name != ".." && name != TRAILER
  }

  /** Lengths that fit the fields of thirty-two bits. */
  ghost predicate Sized(m: map<string, Entry>) {
    forall k :: k in m ==> |m[k].data| < 0x1_0000_0000 && |k| + 1 < 0x1_0000_0000
  }

  lemma {:induction false} CStringPlain(t: string)
    ensures CString(t).Some? ==> '\0' !in CString(t).value
  {
    if t != [] && t[0] != '\0' { CStringPlain(t[1..]); }
  }

  ghost predicate AllPlain(m: map<string, Entry>) {
    forall k :: k in m ==> Plain(k)
  }

  lemma TakesPlain(buf: string, pos: nat, acc: map<string, Entry>)
    requires pos < |buf| && AllPlain(acc)
    ensures match TakeRecord(buf, pos, acc)
            case Go(_, a) => AllPlain(a)
            case Stop(r) => r.Some? ==> AllPlain(r.value)
  {
    if pos + HEADER_SIZE <= |buf| { CStringPlain(buf[pos + HEADER_SIZE..]); }
    hide HexValue, CString, ParseHeader, Cut;
  }

  /** Whatever the buffer: only plain names are ever loaded. */
  lemma {:induction false} LoadsPlain(buf: string, pos: nat, acc: map<string, Entry>)
    requires AllPlain(acc)
    ensures LoadFrom(buf, pos, acc).Some? ==> AllPlain(LoadFrom(buf, pos, acc).value)
    decreases |buf| - pos
  {
    if pos < |buf| {
      TakesPlain(buf, pos, acc);
      hide TakeRecord, AllPlain;
      match TakeRecord(buf, pos, acc) {
        case Go(p, a) => LoadsPlain(buf, p, a);
        case Stop(_) =>
      }
    }
  }

  lemma {:induction false} CStringEnds(name: string, more: string)
    requires '\0' !in name
    ensures CString(name + ['\0'] + more) == Some(name)
  {
    var t := name + ['\0'] + more;
    if name != [] {
      CStringEnds(name[1..], more);
      assert t[1..] == name[1..] + ['\0'] + more;
      assert name[0] in name && name == [name[0]] + name[1..];
    }
  }

  lemma HeaderField(ino: nat, mode: nat, uid: nat, gid: nat, filesize: nat, namesize: nat, i: nat)
    requires i < 13
    ensures Header(ino, mode, uid, gid, filesize, namesize)[6 + 8 * i..14 + 8 * i]
            == HeaderFields(ino, mode, uid, gid, filesize, namesize)[i]
  {
    var f := HeaderFields(ino, mode, uid, gid, filesize, namesize);
    FieldAt(f, i);
    hide HeaderFields, Joined;
    AfterMagic(Joined(f), 8 * i, 8 * i + 8);
  }

  lemma AfterMagic(j: string, i: nat, k: nat)
    requires i <= k <= |j|
    ensures ("070701" + j)[6 + i..6 + k] == j[i..k]
  {
  }

  lemma FieldReads(h: string, at: nat, v: word)
    requires at + 8 <= |h| && h[at..at + 8] == Hex(v, 8)
    ensures HexValue(h[at..at + 8]) == Some(v)
  {
    Pow2Values();
    HexReads(v, 8);
  }

  lemma FieldsAre(ino: nat, mode: nat, uid: nat, gid: nat, filesize: nat, namesize: nat)
    ensures var f := HeaderFields(ino, mode, uid, gid, filesize, namesize);
            f[1] == Hex(mode, 8) && f[2] == Hex(uid, 8) && f[3] == Hex(gid, 8) && f[6] == Hex(filesize, 8)
                && f[11] == Hex(namesize, 8)
  {
    hide Hex;
  }

  lemma HeaderParses(ino: nat, mode: word, uid: word, gid: word, filesize: word, namesize: word)
    ensures ParseHeader(Header(ino, mode, uid, gid, filesize, namesize))
            == Some(Fields(mode, uid, gid, filesize, namesize))
  {
    hide *;
    var h := Header(ino, mode, uid, gid, filesize, namesize);
    HeaderSize(h);
    FieldsAre(ino, mode, uid, gid, filesize, namesize);
    HeaderField(ino, mode, uid, gid, filesize, namesize, 1);
    HeaderField(ino, mode, uid, gid, filesize, namesize, 2);
    HeaderField(ino, mode, uid, gid, filesize, namesize, 3);
    HeaderField(ino, mode, uid, gid, filesize, namesize, 6);
    HeaderField(ino, mode, uid, gid, filesize, namesize, 11);
    FieldReads(h, 14, mode);
    FieldReads(h, 22, uid);
    FieldReads(h, 30, gid);
    FieldReads(h, 54, filesize);
    FieldReads(h, 94, namesize);
    ParsesTo(h, Fields(mode, uid, gid, filesize, namesize));
  }

  lemma HeaderSize(h: string)
    ensures |h| == HEADER_SIZE ==> |h| == 110
  {
  }

  lemma ParsesTo(h: string, f: Fields)
    requires |h| == HEADER_SIZE == 110 && HexValue(h[14..22]) == Some(f.mode) && HexValue(h[22..30]) == Some(f.uid)
    requires HexValue(h[30..38]) == Some(f.gid) && HexValue(h[54..62]) == Some(f.filesize)
             && HexValue(h[94..102]) == Some(f.namesize)
    ensures ParseHeader(h) == Some(f)
  {
    hide HexValue;
  }

  lemma Slices(buf: string, pos: nat, a: string, b: string)
    requires pos <= |buf| && buf[pos..] == a + b
    ensures pos + |a| <= |buf| && buf[pos..pos + |a|] == a && buf[pos + |a|..] == b
  {
    assert buf[pos..pos + |a|] == buf[pos..][..|a|];
    assert buf[pos + |a|..] == buf[pos..][|a|..];
  }

  /** The header and the name of a record, read where they stand. */
  lemma HeadTaken(buf: string, pos: nat, acc: map<string, Entry>, name: string, e: Entry, ino: nat, more: string)
    requires pos <= |buf| && buf[pos..] == Head(name, e, ino, pos) + more && '\0' !in name
    requires |e.data| < 0x1_0000_0000 && |name| + 1 < 0x1_0000_0000
    ensures var p := Align(pos + HEADER_SIZE + |name| + 1);
            && pos < p <= |buf| && buf[p..] == more
            && TakeRecord(buf, pos, acc) == TakeEntry(buf, p, acc, Fields(e.mode, e.uid, e.gid, |e.data|, |name| + 1),
                name)
  {
    hide *;
    var h := Header(ino, e.mode, e.uid, e.gid, |e.data|, |name| + 1);
    var pad := Zeros(AlignOff(pos + HEADER_SIZE + |name| + 1));
    HeaderParses(ino, e.mode, e.uid, e.gid, |e.data|, |name| + 1);
    Slices(buf, pos, Head(name, e, ino, pos), more);
    HeadIs(name, e, ino, pos, more);
    Slices(buf, pos, h, name + ['\0'] + (pad + more));
    CStringEnds(name, pad + more);
    Parsed(buf, pos, acc, Fields(e.mode, e.uid, e.gid, |e.data|, |name| + 1), name);
  }

  lemma HeadIs(name: string, e: Entry, ino: nat, pos: nat, more: string)
    ensures Head(name, e, ino, pos) + more ==
            Header(ino, e.mode, e.uid, e.gid, |e.data|, |name| + 1)
                + (name + ['\0'] + (Zeros(AlignOff(pos + HEADER_SIZE + |name| + 1)) + more))
  {
    hide Header;
  }

  lemma Parsed(buf: string, pos: nat, acc: map<string, Entry>, f: Fields, name: string)
    requires pos + HEADER_SIZE <= |buf| && ParseHeader(buf[pos..pos + HEADER_SIZE]) == Some(f)
             && CString(buf[pos + HEADER_SIZE..]) == Some(name)
    ensures pos < |buf| && TakeRecord(buf, pos, acc)
            == TakeEntry(buf, Align(pos + HEADER_SIZE + f.namesize), acc, f, name)
  {
    hide ParseHeader, CString, TakeEntry;
  }

  lemma BodyTaken(buf: string, p: nat, e: Entry, rest: string)
    requires p <= |buf| && p % 4 == 0 && buf[p..] == Body(e, p) + rest
    ensures (|e.data| > 0 ==> p + |e.data| <= |buf|) && Cut(buf, p, |e.data|) == e.data
            && Align(p + |e.data|) == p + |Body(e, p)|
    ensures p + |Body(e, p)| <= |buf| && buf[p + |Body(e, p)|..] == rest
  {
    Slices(buf, p, Body(e, p), rest);
    if e.data != [] {
      var z := Zeros(AlignOff(p + |e.data|));
      assert Body(e, p) + rest == e.data + (z + rest);
      Slices(buf, p, e.data, z + rest);
    }
  }

  /** A record of a plain name is taken in whole, and leaves what follows it. */
  lemma RecordTaken(buf: string, pos: nat, acc: map<string, Entry>, name: string, e: Entry, ino: nat, rest: string)
    requires pos <= |buf| && buf[pos..] == Record(name, e, ino, pos) + rest && Plain(name) && name !in acc
    requires |e.data| < 0x1_0000_0000 && |name| + 1 < 0x1_0000_0000
    ensures var p := pos + |Record(name, e, ino, pos)|;
            pos < p <= |buf| && buf[p..] == rest && LoadFrom(buf, pos, acc) == LoadFrom(buf, p, acc[name := e])
  {
    hide *;
    var h := Head(name, e, ino, pos);
    var body := Body(e, pos + |h|);
    RecordIs(name, e, ino, pos);
    Assoc(h, body, rest);
    HeadTaken(buf, pos, acc, name, e, ino, body + rest);
    BodyTaken(buf, pos + |h|, e, rest);
    EntryTaken(buf, pos + |h|, acc, name, e, |name| + 1, pos + |h| + |body|);
    LoadsOn(buf, pos, acc);
  }

  lemma RecordIs(name: string, e: Entry, ino: nat, pos: nat)
    ensures var h := Head(name, e, ino, pos); Record(name, e, ino, pos) == h + Body(e, pos + |h|)
    ensures '\0' !in name <== Plain(name)
    ensures (pos + |Head(name, e, ino, pos)|) % 4 == 0
  {
    hide Head, Body;
  }

  lemma EntryTaken(buf: string, p: nat, acc: map<string, Entry>, name: string, e: Entry, namesize: word, p': nat)
    requires Plain(name) && |e.data| < 0x1_0000_0000 && (|e.data| > 0 ==> p + |e.data| <= |buf|) && name !in acc
    requires Cut(buf, p, |e.data|) == e.data && Align(p + |e.data|) == p'
    ensures TakeEntry(buf, p, acc, Fields(e.mode, e.uid, e.gid, |e.data|, namesize), name) == Go(p', acc[name := e])
  {
    hide Cut, Align;
  }

  lemma LoadsOn(buf: string, pos: nat, acc: map<string, Entry>)
    requires pos < |buf|
    ensures match TakeRecord(buf, pos, acc)
            case Go(p, a) => LoadFrom(buf, pos, acc) == LoadFrom(buf, p, a)
            case Stop(r) => LoadFrom(buf, pos, acc) == r
  {
    hide TakeRecord;
  }

  lemma TrailerTaken(buf: string, pos: nat, acc: map<string, Entry>, ino: nat)
    requires pos <= |buf| && buf[pos..] == Record(TRAILER, END, ino, pos)
    ensures LoadFrom(buf, pos, acc) == Some(acc)
  {
    assert Record(TRAILER, END, ino, pos) == Head(TRAILER, END, ino, pos) + [];
    assert '\0' !in TRAILER;
    HeadTaken(buf, pos, acc, TRAILER, END, ino, []);
    hide TakeRecord, Head, LoadFrom;
    LoadsOn(buf, pos, acc);
  }

  ghost function Behind(m: map<string, Entry>, it: Option<string>): map<string, Entry> {
    map k | k in m && k !in Ahead(m.Keys, it) :: m[k]
  }

  lemma {:induction false} WalkLoads(m: map<string, Entry>, it: Option<string>, ino: nat, buf: string, pos: nat)
    requires (it.Some? ==> it.value in m) && Sized(m) && (forall k :: k in m ==> Plain(k))
    requires pos <= |buf| && buf[pos..] == Records(m, it, ino, pos)
    ensures LoadFrom(buf, pos, Behind(m, it)) == Some(m)
    decreases Ahead(m.Keys, it)
  {
    hide LoadFrom, Record, Plain;
    if it.None? {
      RecordsEnd(m, ino, pos);
      TrailerTaken(buf, pos, Behind(m, it), ino);
      WalkEnds(m.Keys);
      assert Behind(m, it) == m;
    } else {
      var k := it.value;
      WalkSteps(m.Keys, k);
      var r, next := Record(k, m[k], ino, pos), Next(m.Keys, k);
      RecordTaken(buf, pos, Behind(m, it), k, m[k], ino, Records(m, next, (ino + 1) % 0x1_0000_0000, pos + |r|));
      assert Behind(m, next) == Behind(m, it)[k := m[k]];
      WalkLoads(m, next, (ino + 1) % 0x1_0000_0000, buf, pos + |r|);
    }
  }

  /** The archive of a map loads as that map exactly when all its names are ones that the format can carry. */
  lemma ArchiveRoundTrip(m: map<string, Entry>)
    requires Sized(m)
    ensures LoadFrom(Archive(m), 0, map[]) == Some(m) <==> forall k :: k in m ==> Plain(k)
  {
    if forall k :: k in m ==> Plain(k) {
      WalkStarts(m.Keys);
      assert Behind(m, First(m.Keys)) == map[];
      assert Archive(m)[0..] == Archive(m);
      WalkLoads(m, First(m.Keys), FIRST_INODE, Archive(m), 0);
    }
    LoadsPlain(Archive(m), 0, map[]);
  }

  /** Written and read again. */
  method DumpAndLoad(m: map<string, Entry>) returns (r: Option<map<string, Entry>>)
    requires Sized(m)
    ensures r == Some(m) <==> forall k :: k in m ==> Plain(k)
  {
    var file := Dump(m);
    r := Load(file);
    ArchiveRoundTrip(m);
  }
}
