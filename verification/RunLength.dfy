/** The initial run-length coding, its inverse, and the CRCs that both sides keep. */
module RunLength {
  import opened Base
  import opened MoveToFront

  // ------------------------------------------------------------ CRCs

  type word = x: int | 0 <= x < 0x1_0000_0000

  function Xor(a: nat, b: nat): nat
    decreases a + b
  {
    if a == 0 && b == 0 then 0 else 2 * Xor(a / 2, b / 2) + (if a % 2 == b % 2 then 0 else 1)
  }

  lemma {:induction false} XorBound(a: nat, b: nat, n: nat)
    requires a < Pow2(n) && b < Pow2(n)
    ensures Xor(a, b) < Pow2(n)
  {
    if n > 0 && (a != 0 || b != 0) {
      XorBound(a / 2, b / 2, n - 1);
    }
  }

  function XorWord(a: word, b: word): word {
    Pow2Values();
    XorBound(a, b, 32);
    Xor(a, b)
  }

  /** BZ_UPDATE_CRC. The table of 256 words is whatever the source's table is: both sides use the same. */
  function UpdateCrc(table: seq<word>, crc: word, c: byte): word
    requires |table| == 256
  {
    Pow2Values();
    XorBound(crc / 0x100_0000, c, 8);
    XorWord(crc * 256 % 0x1_0000_0000, table[Xor(crc / 0x100_0000, c)])
  }

  function CrcFrom(table: seq<word>, crc: word, s: seq<byte>): word
    requires |table| == 256
  {
    if s == [] then crc else UpdateCrc(table, CrcFrom(table, crc, s[..|s| - 1]), s[|s| - 1])
  }

  const CRC_START: word := 0xffff_ffff

  /** BZ_FINALISE_CRC. */
  function Finalise(crc: word): word {
    0xffff_ffff - crc
  }

  function CrcOf(table: seq<word>, s: seq<byte>): word
    requires |table| == 256
  {
    Finalise(CrcFrom(table, CRC_START, s))
  }

  /** The combined CRC is rotated by one bit before a block's CRC is folded in. */
  function Combine(combined: word, crc: word): word {
    XorWord(combined * 2 % 0x1_0000_0000 + combined / 0x8000_0000, crc)
  }

  lemma {:induction false} CrcAppend(table: seq<word>, crc: word, s: seq<byte>, t: seq<byte>)
    requires |table| == 256
    ensures CrcFrom(table, crc, s + t) == CrcFrom(table, CrcFrom(table, crc, s), t)
  {
    hide UpdateCrc;
    if t == [] {
      assert s + t == s;
    } else {
      CrcAppend(table, crc, s, t[..|t| - 1]);
      assert (s + t)[..|s + t| - 1] == s + t[..|t| - 1];
    }
  }

  // ------------------------------------------------------------ runs

  /** A run as it enters the block: a byte and how often it occurs. */
  datatype Pair = Pair(ch: byte, len: nat)

  /** What `add_pair_to_block` appends: up to three bytes as they are, more as four bytes and a count. */
  function PairBytes(p: Pair): seq<byte>
    requires p.len <= 255
  {
    if p.len < 4 then Copies(p.ch, p.len) else Copies(p.ch, 4) + [p.len - 4]
  }

  ghost predicate Short(pairs: seq<Pair>) {
    forall i :: 0 <= i < |pairs| ==> 1 <= pairs[i].len <= 255
  }

  /** A run ends where the byte changes, or after 255 bytes. */
  ghost predicate Runs(pairs: seq<Pair>) {
    && Short(pairs)
    && forall i :: 0 < i < |pairs| ==> Follows(pairs[i - 1], pairs[i])
  }

  ghost predicate Follows(p: Pair, q: Pair) {
    p.ch != q.ch || p.len == 255
  }

  /** The block that a list of runs makes. */
  ghost function PackRuns(pairs: seq<Pair>): seq<byte>
    requires Short(pairs)
  {
    if pairs == [] then [] else PairBytes(pairs[0]) + PackRuns(pairs[1..])
  }

  /** The input bytes a list of runs stands for. */
  ghost function Text(pairs: seq<Pair>): seq<byte> {
    if pairs == [] then [] else Copies(pairs[0].ch, pairs[0].len) + Text(pairs[1..])
  }

  lemma {:induction false} PackAppend(pairs: seq<Pair>, p: Pair)
    requires Short(pairs) && 1 <= p.len <= 255
    ensures Short(pairs + [p]) && PackRuns(pairs + [p]) == PackRuns(pairs) + PairBytes(p)
    ensures Text(pairs + [p]) == Text(pairs) + Copies(p.ch, p.len)
  {
    if pairs == [] {
      assert PackRuns([p]) == PairBytes(p) + PackRuns([]) && Text([p]) == Copies(p.ch, p.len) + Text([]);
      assert [] + [p] == [p];
    } else {
      PackAppend(pairs[1..], p);
      hide PairBytes, Copies;
      assert (pairs + [p])[1..] == pairs[1..] + [p];
    }
  }

  // ------------------------------------------------------------ undoing it

  /** What a block spells, and whether it broke off inside a run. */
  datatype Spelling = Spelling(text: seq<byte>, corrupt: bool)

  /** Length of the run that starts at `m`, and where the next one starts; reading goes on past the block's end. */
  function RunAt(w: seq<byte>, n: nat, m: nat): (r: (nat, nat))
    requires |w| == n + 2 && m < n
    ensures m < r.1 <= n + 1 && r.0 >= 1
  {
    if m + 1 == n || w[m + 1] != w[m] then (1, m + 1)
    else if m + 2 == n || w[m + 2] != w[m] then (2, m + 2)
    else if m + 3 == n || w[m + 3] != w[m] then (3, m + 3)
    else (w[m + 4] as int + 4, m + 5)
  }

  /** The bytes a block of `n` bytes spells from position `m` on, given the two bytes that the walk yields after it. */
  function Expand(w: seq<byte>, n: nat, m: nat): Spelling
    requires |w| == n + 2 && m <= n + 1
    decreases n + 1 - m
  {
    if m >= n then Spelling([], m > n)
    else
      var (k, next) := RunAt(w, n, m);
      var rest := Expand(w, n, next);
      Spelling(Copies(w[m], k) + rest.text, rest.corrupt)
  }

  lemma RunOfPair(w: seq<byte>, n: nat, m: nat, p: Pair, more: seq<byte>)
    requires |w| == n + 2 && m <= n && 1 <= p.len <= 255 && w[m..n] == PairBytes(p) + more
    requires more != [] && p.len < 4 ==> more[0] != p.ch
    ensures m < n && w[m] == p.ch && RunAt(w, n, m) == (p.len, m + |PairBytes(p)|)
    ensures m + |PairBytes(p)| <= n && w[m + |PairBytes(p)|..n] == more
  {
    var b := PairBytes(p);
    assert |w[m..n]| == |b| + |more|;
    forall i | 0 <= i < |b| ensures w[m + i] == b[i] { assert w[m..n][i] == b[i]; }
    if more != [] { assert w[m..n][|b|] == more[0]; }
    assert w[m + |b|..n] == w[m..n][|b|..];
  }

  /**
   * Un-run-length-coding a block of proper runs gives the bytes that were coded and never calls the block corrupt,
   * whatever the two bytes read past its end are.
   */
  lemma {:induction false} ExpandPack(w: seq<byte>, n: nat, m: nat, pairs: seq<Pair>)
    requires |w| == n + 2 && m <= n && Runs(pairs) && w[m..n] == PackRuns(pairs)
    ensures Expand(w, n, m) == Spelling(Text(pairs), false)
    decreases |pairs|
  {
    if pairs == [] {
      assert |w[m..n]| == 0;
    } else {
      var p, rest := pairs[0], pairs[1..];
      assert Runs(rest) by {
        forall i | 0 < i < |rest| ensures Follows(rest[i - 1], rest[i]) { assert Follows(pairs[i], pairs[i + 1]); }
      }
      if rest != [] {
        assert Follows(pairs[0], pairs[1]);
        FirstPack(rest);
      }
      RunOfPair(w, n, m, p, PackRuns(rest));
      ExpandPack(w, n, m + |PairBytes(p)|, rest);
    }
  }

  lemma FirstPack(pairs: seq<Pair>)
    requires pairs != [] && Short(pairs)
    ensures PackRuns(pairs) != [] && PackRuns(pairs)[0] == pairs[0].ch
  {
    assert PairBytes(pairs[0])[0] == pairs[0].ch;
  }
}
