/**
 * What the CRCs are: the table-driven form divides, bit by bit, by the polynomial of the Ethernet CRC; and what they
 * find: any change that is confined to four bytes in a row.
 */
module Crc {
  import opened Base
  import opened Bits
  import opened RunLength

  // ------------------------------------------------------------ exclusive or

  lemma {:induction false} XorParts(a: nat, b: nat)
    ensures Xor(a, b) / 2 == Xor(a / 2, b / 2) && (Xor(a, b) % 2 == 1 <==> a % 2 != b % 2)
    ensures Xor(a, b) == 2 * Xor(a / 2, b / 2) + if a % 2 != b % 2 then 1 else 0
  {
  }

  lemma {:induction false} XorSwaps(a: nat, b: nat)
    ensures Xor(a, b) == Xor(b, a)
    decreases a + b
  {
    if a != 0 || b != 0 { XorSwaps(a / 2, b / 2); }
  }

  lemma {:induction false} XorNone(a: nat)
    ensures Xor(a, 0) == a && Xor(a, a) == 0
  {
    if a != 0 { XorNone(a / 2); }
  }

  lemma {:induction false} XorGroups(a: nat, b: nat, c: nat)
    ensures Xor(Xor(a, b), c) == Xor(a, Xor(b, c))
    decreases a + b + c
  {
    XorParts(a, b);
    XorParts(b, c);
    XorParts(Xor(a, b), c);
    XorParts(a, Xor(b, c));
    if a != 0 || b != 0 || c != 0 { XorGroups(a / 2, b / 2, c / 2); }
  }

  /** Of two numbers with the same exclusive or with a third each is the other. */
  lemma XorCancels(a: nat, b: nat, c: nat)
    ensures Xor(a, c) == Xor(b, c) <==> a == b
  {
    if Xor(a, c) == Xor(b, c) {
      XorGroups(a, c, c);
      XorGroups(b, c, c);
      XorNone(c);
      XorNone(a);
      XorNone(b);
    }
  }

  lemma XorNothing(a: nat, b: nat)
    ensures Xor(a, b) == 0 <==> a == b
  {
    XorCancels(a, b, b);
    XorNone(b);
  }

  /** Exclusive or of numbers cut in two at a bit. */
  lemma {:induction false} XorSplits(a: nat, b: nat, x: nat, y: nat, n: nat)
    requires x < Pow2(n) && y < Pow2(n)
    ensures Xor(a * Pow2(n) + x, b * Pow2(n) + y) == Xor(a, b) * Pow2(n) + Xor(x, y)
    decreases n
  {
    hide *;
    if n == 0 {
      SplitNone(a, b, x, y);
    } else {
      var p := Pow2(n - 1);
      NextPower(n - 1);
      XorSplits(a, b, x / 2, y / 2, n - 1);
      HalfOf(a, p, x);
      HalfOf(b, p, y);
      XorParts(a * (2 * p) + x, b * (2 * p) + y);
      XorParts(x, y);
      HalfOf(Xor(a, b), p, 0);
    }
  }

  lemma SplitNone(a: nat, b: nat, x: nat, y: nat)
    requires x < Pow2(0) && y < Pow2(0)
    ensures Xor(a * Pow2(0) + x, b * Pow2(0) + y) == Xor(a, b) * Pow2(0) + Xor(x, y)
  {
    XorNone(0);
    assert Pow2(0) == 1 && x == 0 && y == 0;
  }

  lemma NextPower(n: nat)
    ensures Pow2(n + 1) == 2 * Pow2(n)
  {
  }

  lemma HalfOf(a: nat, p: nat, x: nat)
    ensures (a * (2 * p) + x) / 2 == a * p + x / 2 && (a * (2 * p) + x) % 2 == x % 2 && a * (2 * p) == 2 * (a * p)
  {
    assert a * (2 * p) == 2 * (a * p);
  }

  /** Two exclusive ors, regrouped. */
  lemma XorFour(a: nat, b: nat, c: nat, d: nat)
    ensures Xor(Xor(a, b), Xor(c, d)) == Xor(Xor(a, c), Xor(b, d))
  {
    XorGroups(a, b, Xor(c, d));
    XorGroups(b, c, d);
    XorSwaps(b, c);
    XorGroups(c, b, d);
    XorGroups(a, c, Xor(b, d));
  }

  // ------------------------------------------------------------ one bit

  const POLY: word := 0x04c1_1db7

  /** The register moves up by one bit; what falls off the end takes the polynomial with it. */
  function Shift(v: word): word {
    XorWord(v * 2 % 0x1_0000_0000, if v >= 0x8000_0000 then POLY else 0)
  }

  function Shifts(v: word, n: nat): word {
    if n == 0 then v else Shift(Shifts(v, n - 1))
  }

  /** Long division by the polynomial, one bit of the message after another. */
  function Divide(crc: word, bits: seq<bool>): word {
    if bits == [] then crc
    else Shift(XorWord(Divide(crc, bits[..|bits| - 1]), if bits[|bits| - 1] then 0x8000_0000 else 0))
  }

  /** The entries of the table: a byte at the top of the register, moved out of it. */
  ghost predicate RemainderTable(table: seq<word>) {
    |table| == 256 && forall i :: 0 <= i < 256 ==> table[i] == Shifts(i * 0x100_0000, 8)
  }

  // ------------------------------------------------------------ shifting is linear

  /** One shift, the top bit apart. */
  lemma ShiftIs(v: word)
    ensures var (t, l) := (v / 0x8000_0000, v % 0x8000_0000);
            Shift(v) == Xor(2 * l, if t == 1 then POLY else 0)
  {
    hide Xor;
    assert v * 2 % 0x1_0000_0000 == 2 * (v % 0x8000_0000);
  }

  lemma TopBit(a: word, b: word)
    ensures Xor(a, b) < 0x1_0000_0000
    ensures Xor(a, b) % 0x8000_0000 == Xor(a % 0x8000_0000, b % 0x8000_0000)
    ensures Xor(a, b) / 0x8000_0000 == if a / 0x8000_0000 == b / 0x8000_0000 then 0 else 1
  {
    hide *;
    BigPowers();
    XorBound(a, b, 32);
    var (p, q) := (a % 0x8000_0000, b % 0x8000_0000);
    XorBound(p, q, 31);
    XorSplits(a / 0x8000_0000, b / 0x8000_0000, p, q, 31);
    OneBit(a / 0x8000_0000, b / 0x8000_0000);
    QuotientIs(Xor(a, b), Xor(a / 0x8000_0000, b / 0x8000_0000), 0x8000_0000, Xor(p, q));
  }

  lemma BigPowers()
    ensures Pow2(31) == 0x8000_0000 && Pow2(32) == 0x1_0000_0000 && Pow2(7) == 128
  {
    Pow2Values();
    assert Pow2(32) == 2 * Pow2(31) && Pow2(8) == 2 * Pow2(7);
  }

  lemma OneBit(a: nat, b: nat)
    requires a <= 1 && b <= 1
    ensures Xor(a, b) == if a == b then 0 else 1
  {
    XorParts(a, b);
    XorNone(0);
  }

  lemma XorDoubled(a: nat, b: nat)
    ensures Xor(2 * a, 2 * b) == 2 * Xor(a, b)
  {
    XorParts(2 * a, 2 * b);
  }

  lemma ShiftLinear(a: word, b: word)
    ensures Xor(a, b) < 0x1_0000_0000 && Shift(XorWord(a, b)) == Xor(Shift(a), Shift(b))
  {
    hide *;
    XorWordIs(a, b);
    TopBit(a, b);
    ShiftIs(a);
    ShiftIs(b);
    ShiftIs(XorWord(a, b));
    var (x, y) := (2 * (a % 0x8000_0000), 2 * (b % 0x8000_0000));
    var (s, t) := (if a / 0x8000_0000 == 1 then POLY else 0, if b / 0x8000_0000 == 1 then POLY else 0);
    XorDoubled(a % 0x8000_0000, b % 0x8000_0000);
    XorFour(x, s, y, t);
    XorNone(POLY);
    XorNone(0);
    XorSwaps(0, POLY);
  }

  lemma XorWordIs(a: word, b: word)
    ensures XorWord(a, b) == Xor(a, b)
  {
  }

  lemma {:induction false} ShiftsLinear(a: word, b: word, n: nat)
    ensures Shifts(XorWord(a, b), n) == XorWord(Shifts(a, n), Shifts(b, n))
    decreases n
  {
    hide Shift, Xor, XorWord;
    if n > 0 {
      ShiftsLinear(a, b, n - 1);
      ShiftLinear(Shifts(a, n - 1), Shifts(b, n - 1));
      XorWordIs(Shift(Shifts(a, n - 1)), Shift(Shifts(b, n - 1)));
    }
  }

  lemma ShiftLow(v: word)
    requires v < 0x8000_0000
    ensures Shift(v) == 2 * v
  {
    hide Xor;
    XorNone(2 * v);
  }

  /** A number that stays below the top is just doubled. */
  lemma {:induction false} ShiftsUp(v: word, n: nat)
    requires v * Pow2(n) < 0x1_0000_0000
    ensures Shifts(v, n) == v * Pow2(n)
    decreases n
  {
    ShiftsDown(v, n);
    hide Shift, Pow2;
    if n > 0 {
      Twice(v, Pow2(n - 1));
      ShiftsUp(v, n - 1);
      ShiftLow(v * Pow2(n - 1));
    }
  }

  lemma ShiftsDown(v: word, n: nat)
    ensures Pow2(0) == 1 && Shifts(v, 0) == v
    ensures n > 0 ==> Pow2(n) == 2 * Pow2(n - 1) && Shifts(v, n) == Shift(Shifts(v, n - 1))
  {
    hide Shift;
  }

  lemma Twice(v: nat, p: nat)
    ensures v * (2 * p) == 2 * (v * p)
  {
  }

  lemma {:induction false} ShiftsAdd(v: word, m: nat, n: nat)
    ensures Shifts(Shifts(v, m), n) == Shifts(v, m + n)
    decreases n
  {
    hide Shift;
    if n > 0 { ShiftsAdd(v, m, n - 1); }
  }

  // ------------------------------------------------------------ bytes and bits

  /** Dividing by few bits: they are put at the top of the register and moved out of it. */
  lemma {:induction false} DivideShort(crc: word, v: nat, n: nat)
    requires n <= 32 && v < Pow2(n)
    ensures v * Pow2(32 - n) < 0x1_0000_0000
    ensures Divide(crc, ToBits(v, n)) == Shifts(XorWord(crc, v * Pow2(32 - n)), n)
    decreases n
  {
    hide *;
    AtTheTop(v, n);
    if n == 0 {
      DivideNothing(crc, v);
    } else {
      HalfFits(v, n);
      DivideShort(crc, v / 2, n - 1);
      var (q, b) := (Pow2(32 - n), v % 2);
      var u := v / 2 * Pow2(33 - n);
      DivideOne(crc, v, n);
      LowBit(v, n);
      ShiftsUp(b * q, n - 1);
      ShiftsLinear(XorWord(crc, u), b * q, n - 1);
      Regroups(crc, u, b * q);
      ShiftsDown(XorWord(crc, v * q), n);
    }
  }

  lemma AtTheTop(v: nat, n: nat)
    requires n <= 32 && v < Pow2(n)
    ensures v * Pow2(32 - n) < 0x1_0000_0000
  {
    Pow2Values();
    Pow2Add(n, 32 - n);
    hide Pow2;
    LeadingDigit(v, 0, Pow2(n) - 1, Pow2(32 - n) - 1, Pow2(32 - n));
    Twice(1, Pow2(32 - n));
    assert (Pow2(n) - 1) * Pow2(32 - n) + Pow2(32 - n) == Pow2(n) * Pow2(32 - n);
  }

  lemma DivideNothing(crc: word, v: nat)
    requires v < Pow2(0)
    ensures v == 0 == v * Pow2(32)
    ensures Divide(crc, ToBits(v, 0)) == crc && Shifts(XorWord(crc, 0), 0) == crc
  {
    XorNone(crc);
  }

  lemma HalfFits(v: nat, n: nat)
    requires 0 < n && v < Pow2(n)
    ensures v / 2 < Pow2(n - 1)
  {
  }

  lemma DivideOne(crc: word, v: nat, n: nat)
    requires n > 0
    ensures Divide(crc, ToBits(v, n)) ==
            Shift(XorWord(Divide(crc, ToBits(v / 2, n - 1)), if v % 2 == 1 then 0x8000_0000 else 0))
  {
    hide Shift, XorWord;
    assert ToBits(v, n)[..n - 1] == ToBits(v / 2, n - 1);
  }

  /** The bit that comes last, at its place among the others. */
  lemma LowBit(v: nat, n: nat)
    requires 0 < n <= 32
    ensures var (q, b) := (Pow2(32 - n), v % 2);
            && b * q * Pow2(n - 1) == (if b == 1 then 0x8000_0000 else 0) && b * q < 0x1_0000_0000
            && Xor(v / 2 * Pow2(33 - n), b * q) == v * q
  {
    hide *;
    var (q, b) := (Pow2(32 - n), v % 2);
    TopOne(n);
    BitJoins(v, q, 32 - n);
    NextPower(32 - n);
    assert b == 0 || b == 1;
    Regroup3(v / 2, q);
  }

  lemma Regroup3(a: nat, q: nat)
    ensures 2 * a * q == a * (2 * q)
  {
  }

  lemma TopOne(n: nat)
    requires 0 < n <= 32
    ensures Pow2(32 - n) * Pow2(n - 1) == 0x8000_0000 && Pow2(32 - n) <= 0x8000_0000
  {
    Pow2Values();
    Pow2Add(32 - n, n - 1);
    assert Pow2(31) == 0x8000_0000 by { assert Pow2(32) == 2 * Pow2(31); }
    Pow2Monotone(32 - n, 31);
  }

  lemma BitJoins(v: nat, q: nat, k: nat)
    requires q == Pow2(k)
    ensures Xor(2 * (v / 2) * q, v % 2 * q) == v * q
  {
    var b := v % 2;
    XorParts(2 * (v / 2), b);
    XorNone(v / 2);
    XorSplits(2 * (v / 2), b, 0, 0, k);
    XorNone(0);
    hide Xor, Pow2;
  }

  lemma Regroups(a: word, b: word, c: word)
    ensures Xor(b, c) < 0x1_0000_0000 ==> XorWord(XorWord(a, b), c) == XorWord(a, Xor(b, c))
  {
    hide Xor;
    XorGroups(a, b, c);
  }

  lemma TableAt(table: seq<word>, i: nat)
    requires RemainderTable(table) && i < 256
    ensures table[i] == Shifts(i * 0x100_0000, 8)
  {
  }

  /** A byte in the register, before it is moved out: the top byte and the three below it. */
  lemma Registers(crc: word, c: byte)
    ensures var (h, l) := (crc / 0x100_0000, crc % 0x100_0000);
            && Xor(h, c) < 256 && XorWord(crc, c * 0x100_0000) == XorWord(Xor(h, c) * 0x100_0000, l)
  {
    var (h, l) := (crc / 0x100_0000, crc % 0x100_0000);
    Pow2Values();
    XorBound(h, c, 8);
    hide Xor, Pow2;
    XorSplits(h, c, l, 0, 24);
    XorSplits(Xor(h, c), 0, 0, l, 24);
    XorNone(l);
    XorNone(Xor(h, c));
    XorSwaps(0, l);
  }

  /** Updating by the table divides by the eight bits of a byte. */
  lemma ByteDivides(table: seq<word>, crc: word, c: byte)
    requires RemainderTable(table)
    ensures UpdateCrc(table, crc, c) == Divide(crc, ToBits(c, 8))
  {
    hide *;
    var (h, l) := (crc / 0x100_0000, crc % 0x100_0000);
    Powers();
    DivideShort(crc, c, 8);
    Registers(crc, c);
    ShiftsLinear(Xor(h, c) * 0x100_0000, l, 8);
    TableAt(table, Xor(h, c));
    ShiftsUp(l, 8);
    TableSize(table);
    UpdateIs(table, crc, c);
    XorWordSwaps(table[Xor(h, c)], l * 256);
  }

  lemma Powers()
    ensures Pow2(8) == 256 && Pow2(24) == 0x100_0000 && Pow2(32 - 8) == 0x100_0000
  {
    Pow2Values();
  }

  lemma TableSize(table: seq<word>)
    requires RemainderTable(table)
    ensures |table| == 256
  {
  }

  lemma UpdateIs(table: seq<word>, crc: word, c: byte)
    requires |table| == 256 && Xor(crc / 0x100_0000, c) < 256
    ensures UpdateCrc(table, crc, c) == XorWord(crc % 0x100_0000 * 256, table[Xor(crc / 0x100_0000, c)])
  {
    hide Xor, XorWord;
  }

  lemma XorWordSwaps(a: word, b: word)
    ensures XorWord(a, b) == XorWord(b, a)
  {
    XorSwaps(a, b);
    hide Xor;
  }

  lemma {:induction false} DivideOn(crc: word, a: seq<bool>, b: seq<bool>)
    ensures Divide(crc, a + b) == Divide(Divide(crc, a), b)
    decreases |b|
  {
    if b == [] {
      assert a + b == a;
    } else {
      var t := b[..|b| - 1];
      DivideOn(crc, a, t);
      assert (a + b)[..|a + b| - 1] == a + t && (a + b)[|a + b| - 1] == b[|b| - 1];
      hide Shift, XorWord;
    }
  }

  /** The CRC of a text is the remainder of its bits, from the register it starts with. */
  lemma {:induction false} CrcDivides(table: seq<word>, crc: word, s: seq<byte>)
    requires RemainderTable(table)
    ensures |table| == 256 && CrcFrom(table, crc, s) == Divide(crc, Unpack(s))
    decreases |s|
  {
    hide RemainderTable, UpdateCrc, Divide, ToBits;
    TableSize(table);
    if s == [] {
      NothingDivides(crc);
    } else {
      var (t, c) := (s[..|s| - 1], s[|s| - 1]);
      CrcDivides(table, crc, t);
      ByteDivides(table, CrcFrom(table, crc, t), c);
      assert s == t + [c];
      UnpackOne(t, c);
      DivideOn(crc, Unpack(t), ToBits(c, 8));
    }
  }

  lemma NothingDivides(crc: word)
    ensures Divide(crc, []) == crc && Unpack([]) == []
  {
  }

  /** The CRC that goes with a text: all ones divided by its bits, and complemented. */
  lemma CrcIsRemainder(table: seq<word>, s: seq<byte>)
    requires RemainderTable(table)
    ensures |table| == 256 && CrcOf(table, s) == 0xffff_ffff - Divide(0xffff_ffff, Unpack(s))
  {
    hide CrcFrom, Divide;
    CrcDivides(table, 0xffff_ffff, s);
  }

  // ------------------------------------------------------------ the words of the table

  /** Every entry is the exclusive or of those for the bits of its place. */
  lemma TableLinear(table: seq<word>, i: nat, j: nat)
    requires RemainderTable(table) && i < 256 && j < 256
    ensures Xor(i, j) < 256 && |table| == 256 && table[Xor(i, j)] == Xor(table[i], table[j])
  {
    hide *;
    Powers();
    XorBound(i, j, 8);
    TableSize(table);
    XorSplits(i, j, 0, 0, 24);
    XorNone(0);
    ShiftsLinear(i * 0x100_0000, j * 0x100_0000, 8);
    XorWordIs(i * 0x100_0000, j * 0x100_0000);
    XorWordIs(Shifts(i * 0x100_0000, 8), Shifts(j * 0x100_0000, 8));
    TableAt(table, i);
    TableAt(table, j);
    TableAt(table, Xor(i, j));
  }

  /** An entry at twice the place has been shifted once more. */
  lemma TableDoubles(table: seq<word>, i: nat)
    requires RemainderTable(table) && i < 128
    ensures |table| == 256 && table[2 * i] == Shift(table[i])
  {
    hide *;
    TableSize(table);
    TableAt(table, i);
    TableAt(table, 2 * i);
    ShiftLow(i * 0x100_0000);
    ShiftsDown(i * 0x100_0000, 1);
    ShiftsAdd(i * 0x100_0000, 1, 8);
    ShiftsDown(i * 0x100_0000, 9);
  }

  /** The entries for single bits, which make up all others. */
  lemma TableWords(table: seq<word>)
    requires RemainderTable(table)
    ensures |table| == 256 && table[0] == 0 && table[1] == 0x04c1_1db7 && table[2] == 0x0982_3b6e
    ensures table[4] == 0x1304_76dc && table[8] == 0x2608_edb8 && table[16] == 0x4c11_db70
    ensures table[32] == 0x9823_b6e0 && table[64] == 0x3486_7077 && table[128] == 0x690c_e0ee
  {
    hide *;
    TableSize(table);
    TableAt(table, 0);
    ShiftsUp(0, 8);
    FirstWord(table);
    TableDoubles(table, 1);
    TableDoubles(table, 2);
    TableDoubles(table, 4);
    TableDoubles(table, 8);
    TableDoubles(table, 16);
    TableDoubles(table, 32);
    TableDoubles(table, 64);
    ShiftLow(0x04c1_1db7);
    ShiftLow(0x0982_3b6e);
    ShiftLow(0x1304_76dc);
    ShiftLow(0x2608_edb8);
    ShiftLow(0x4c11_db70);
    ShiftLow(0x3486_7077);
    OverTheTop();
  }

  lemma FirstWord(table: seq<word>)
    requires RemainderTable(table)
    ensures |table| == 256 && table[1] == 0x04c1_1db7
  {
    hide *;
    BigPowers();
    SmallPowers();
    TableSize(table);
    TableAt(table, 1);
    ShiftsUp(0x100_0000, 7);
    ShiftIs(0x8000_0000);
    XorNone(POLY);
    XorSwaps(0, POLY);
    ShiftsDown(0x100_0000, 8);
  }

  lemma OverTheTop()
    ensures Shift(0x9823_b6e0) == 0x3486_7077
  {
    hide *;
    ShiftIs(0x9823_b6e0);
    SmallPowers();
    UpperHalf();
    LowerHalf();
    XorSplits(0x3047, 0x04c1, 0x6dc0, 0x1db7, 16);
  }

  lemma SmallPowers()
    ensures Pow2(4) == 16 && Pow2(8) == 256 && Pow2(16) == 0x1_0000 && POLY == 0x04c1_1db7
  {
    Pow2Values();
  }

  lemma UpperHalf()
    ensures Xor(0x3047, 0x04c1) == 0x3486
  {
    hide *;
    SmallPowers();
    Nibbles();
    XorSplits(0x30, 0x04, 0x47, 0xc1, 8);
    XorSplits(3, 0, 0, 4, 4);
    XorSplits(4, 12, 7, 1, 4);
  }

  lemma LowerHalf()
    ensures Xor(0x6dc0, 0x1db7) == 0x7077
  {
    hide *;
    SmallPowers();
    Nibbles();
    XorSplits(0x6d, 0x1d, 0xc0, 0xb7, 8);
    XorSplits(6, 1, 13, 13, 4);
    XorSplits(12, 11, 0, 7, 4);
  }

  lemma Nibbles()
    ensures Xor(3, 0) == 3 && Xor(0, 4) == 4 && Xor(4, 12) == 8 && Xor(7, 1) == 6 && Xor(6, 1) == 7
    ensures Xor(13, 13) == 0 && Xor(12, 11) == 7 && Xor(0, 7) == 7
  {
  }

  // ------------------------------------------------------------ what a CRC finds

  lemma ShiftNull(v: word)
    requires Shift(v) == 0
    ensures v == 0
  {
    ShiftIs(v);
    hide Shift, Xor;
    XorNone(2 * (v % 0x8000_0000));
    if v >= 0x8000_0000 {
      XorNothing(2 * (v % 0x8000_0000), POLY);
    }
  }

  lemma ShiftApart(a: word, b: word)
    requires Shift(a) == Shift(b)
    ensures a == b
  {
    hide *;
    XorNothing(Shift(a), Shift(b));
    XorNothing(a, b);
    ShiftLinear(a, b);
    XorWordIs(a, b);
    ShiftNull(XorWord(a, b));
  }

  lemma {:induction false} ShiftsApart(a: word, b: word, n: nat)
    requires Shifts(a, n) == Shifts(b, n)
    ensures a == b
    decreases n
  {
    hide Shift;
    if n > 0 {
      ShiftApart(Shifts(a, n - 1), Shifts(b, n - 1));
      ShiftsApart(a, b, n - 1);
    }
  }

  /** Different registers stay different. */
  lemma {:induction false} DivideApart(a: word, b: word, bits: seq<bool>)
    requires Divide(a, bits) == Divide(b, bits)
    ensures a == b
    decreases |bits|
  {
    hide Shift, XorWord;
    if bits != [] {
      var t := bits[..|bits| - 1];
      var x: word := if bits[|bits| - 1] then 0x8000_0000 else 0;
      ShiftApart(XorWord(Divide(a, t), x), XorWord(Divide(b, t), x));
      XorWordIs(Divide(a, t), x);
      XorWordIs(Divide(b, t), x);
      XorCancels(Divide(a, t), Divide(b, t), x);
      DivideApart(a, b, t);
    }
  }

  /** Up to thirty-two bits, all of them matter. */
  lemma BitsApart(crc: word, x: seq<bool>, y: seq<bool>)
    requires |x| == |y| <= 32 && Divide(crc, x) == Divide(crc, y)
    ensures x == y
  {
    hide *;
    var n := |x|;
    BitsOfVal(x);
    BitsOfVal(y);
    ValBound(x);
    ValBound(y);
    DivideShort(crc, Val(x), n);
    DivideShort(crc, Val(y), n);
    var (u, v) := (Val(x) * Pow2(32 - n), Val(y) * Pow2(32 - n));
    ShiftsApart(XorWord(crc, u), XorWord(crc, v), n);
    XorWordIs(crc, u);
    XorWordIs(crc, v);
    XorSwaps(crc, u);
    XorSwaps(crc, v);
    XorCancels(u, v, crc);
    LeadingDigit(Val(x), 0, Val(y), 0, Pow2(32 - n));
  }

  lemma {:induction false} UnpackApart(x: seq<byte>, y: seq<byte>)
    requires |x| == |y| && Unpack(x) == Unpack(y)
    ensures x == y
    decreases |x|
  {
    if x != [] {
      var (s, t) := (x[..|x| - 1], y[..|y| - 1]);
      var (c, d) := (x[|x| - 1], y[|y| - 1]);
      assert x == s + [c] && y == t + [d];
      UnpackOne(s, c);
      UnpackOne(t, d);
      hide Unpack, ToBits;
      SameParts(Unpack(s), ToBits(c, 8), Unpack(t), ToBits(d, 8));
      Pow2Values();
      ValOfBits(c, 8);
      ValOfBits(d, 8);
      UnpackApart(s, t);
    }
  }

  lemma SameParts(a: seq<bool>, x: seq<bool>, b: seq<bool>, y: seq<bool>)
    requires a + x == b + y && |a| == |b|
    ensures a == b && x == y
  {
    assert (a + x)[..|a|] == a && (b + y)[..|a|] == b;
    assert (a + x)[|a|..] == x && (b + y)[|a|..] == y;
  }

  /** A change confined to four bytes in a row changes the CRC, whatever stands before and after. */
  lemma ChangeFound(table: seq<word>, a: seq<byte>, x: seq<byte>, y: seq<byte>, b: seq<byte>)
    requires RemainderTable(table) && |x| == |y| <= 4 && x != y
    ensures |table| == 256 && CrcOf(table, a + x + b) != CrcOf(table, a + y + b)
  {
    hide *;
    CrcIsRemainder(table, a + x + b);
    CrcIsRemainder(table, a + y + b);
    InThree(0xffff_ffff, a, x, b);
    InThree(0xffff_ffff, a, y, b);
    var r := Divide(0xffff_ffff, Unpack(a));
    if CrcOf(table, a + x + b) == CrcOf(table, a + y + b) {
      DivideApart(Divide(r, Unpack(x)), Divide(r, Unpack(y)), Unpack(b));
      BitsApart(r, Unpack(x), Unpack(y));
      UnpackApart(x, y);
    }
  }

  lemma InThree(crc: word, a: seq<byte>, x: seq<byte>, b: seq<byte>)
    ensures Divide(crc, Unpack(a + x + b)) == Divide(Divide(Divide(crc, Unpack(a)), Unpack(x)), Unpack(b))
  {
    hide Divide, Unpack;
    UnpackAppend(a + x, b);
    UnpackAppend(a, x);
    DivideOn(crc, Unpack(a) + Unpack(x), Unpack(b));
    DivideOn(crc, Unpack(a), Unpack(x));
  }

  // ------------------------------------------------------------ the combined CRC

  /** Bit `k` of a number. */
  function BitOf(v: nat, k: nat): bool {
    v / Pow2(k) % 2 == 1
  }

  lemma {:induction false} BitsOfXor(a: nat, b: nat, k: nat)
    ensures BitOf(Xor(a, b), k) <==> BitOf(a, k) != BitOf(b, k)
    decreases k
  {
    XorParts(a, b);
    if k == 0 {
      assert Pow2(0) == 1;
    } else {
      BitsOfXor(a / 2, b / 2, k - 1);
      NextBit(a, k);
      NextBit(b, k);
      NextBit(Xor(a, b), k);
    }
  }

  lemma NextBit(v: nat, k: nat)
    requires k > 0
    ensures BitOf(v, k) == BitOf(v / 2, k - 1)
  {
    var p := Pow2(k - 1);
    assert v / (2 * p) == v / 2 / p by { DivTwice(v, p); }
  }

  lemma DivTwice(v: nat, p: nat)
    requires p >= 1
    ensures v / (2 * p) == v / 2 / p
  {
    var (q, r) := (v / 2 / p, v / 2 % p);
    assert v / 2 == q * p + r;
    Twice(q, p);
    QuotientIs(v, q, 2 * p, 2 * r + v % 2);
  }

  /** A word turned by one bit: the top bit goes to the bottom. */
  function Turn(c: word): word {
    c % 0x8000_0000 * 2 + c / 0x8000_0000
  }

  /** The combined CRC is turned by one bit, and the block's is laid over it. */
  lemma CombineBits(c: word, x: word, k: nat)
    requires k < 32
    ensures BitOf(Combine(c, x), k) <==> BitOf(c, if k == 0 then 31 else k - 1) != BitOf(x, k)
  {
    CombineIs(c, x);
    BitsOfXor(Turn(c), x, k);
    TurnedBit(c, k);
  }

  lemma TurnedBit(c: word, k: nat)
    requires k < 32
    ensures BitOf(Turn(c), k) == BitOf(c, if k == 0 then 31 else k - 1)
  {
    var (t, l) := (c / 0x8000_0000, c % 0x8000_0000);
    if k == 0 {
      Pow2Values();
      assert Pow2(32) == 2 * Pow2(31);
    } else {
      NextBit(l * 2 + t, k);
      assert (l * 2 + t) / 2 == l;
      LowPart(t, l, k - 1);
    }
  }

  /** What stands above does not touch the lower bits. */
  lemma LowPart(t: nat, l: nat, j: nat)
    requires j < 31 && l < 0x8000_0000
    ensures BitOf(t * 0x8000_0000 + l, j) == BitOf(l, j)
  {
    Pow2Values();
    assert Pow2(32) == 2 * Pow2(31);
    Pow2Add(31 - j, j);
    var (p, q) := (Pow2(j), Pow2(31 - j));
    assert q == 2 * Pow2(30 - j);
    hide Pow2;
    EvenAbove(t, l, p, Pow2(30 - j));
  }

  lemma EvenAbove(t: nat, l: nat, p: nat, h: nat)
    requires p >= 1
    ensures (t * (2 * h * p) + l) / p % 2 == l / p % 2
  {
    var (q, r) := (l / p, l % p);
    assert l == q * p + r;
    Shared(t, h, p, q);
    QuotientIs(t * (2 * h * p) + l, 2 * (t * h) + q, p, r);
  }

  lemma Shared(t: nat, h: nat, p: nat, q: nat)
    ensures t * (2 * h * p) + q * p == (2 * (t * h) + q) * p
  {
    assert t * (2 * h * p) == 2 * (t * h) * p;
  }

  lemma CombineIs(c: word, x: word)
    ensures Combine(c, x) == Xor(Turn(c), x)
  {
    assert c * 2 % 0x1_0000_0000 == c % 0x8000_0000 * 2;
    hide Xor;
  }

  /** Another block's CRC, or another state before it, makes another combined CRC. */
  lemma CombineApart(c: word, d: word, x: word, y: word)
    ensures Combine(c, x) == Combine(c, y) ==> x == y
    ensures Combine(c, x) == Combine(d, x) ==> c == d
  {
    hide *;
    CombineIs(c, x);
    CombineIs(c, y);
    CombineIs(d, x);
    var (r, s) := (Turn(c), Turn(d));
    XorSwaps(r, x);
    XorSwaps(r, y);
    XorCancels(x, y, r);
    XorCancels(r, s, x);
    if r == s { TurnApart(c, d); }
  }

  lemma TurnApart(c: word, d: word)
    requires Turn(c) == Turn(d)
    ensures c == d
  {
  }

  /** The combined CRC of blocks with these CRCs. */
  function CombinedOf(start: word, crcs: seq<word>): word {
    if crcs == [] then start else Combine(CombinedOf(start, crcs[..|crcs| - 1]), crcs[|crcs| - 1])
  }

  /** One block with another CRC, all others alike: another combined CRC. */
  lemma {:induction false} BlockChangeFound(start: word, crcs: seq<word>, k: nat, x: word)
    requires k < |crcs| && crcs[k] != x
    ensures CombinedOf(start, crcs[k := x]) != CombinedOf(start, crcs)
    decreases |crcs|
  {
    var (n, others) := (|crcs| - 1, crcs[k := x]);
    hide Combine;
    if k == n {
      assert others[..n] == crcs[..n];
      CombineApart(CombinedOf(start, crcs[..n]), 0, x, crcs[n]);
    } else {
      assert others[..n] == crcs[..n][k := x] && others[n] == crcs[n];
      BlockChangeFound(start, crcs[..n], k, x);
      CombineApart(CombinedOf(start, others[..n]), CombinedOf(start, crcs[..n]), crcs[n], 0);
    }
  }

  lemma TurnLinear(a: word, b: word)
    ensures Xor(a, b) < 0x1_0000_0000 && Turn(Xor(a, b)) == Xor(Turn(a), Turn(b))
  {
    hide *;
    TopBit(a, b);
    TurnParts(a);
    TurnParts(b);
    TurnParts(Xor(a, b));
    XorParts(Turn(a), Turn(b));
  }

  lemma TurnParts(a: word)
    ensures Turn(a) / 2 == a % 0x8000_0000 && Turn(a) % 2 == a / 0x8000_0000
    ensures Turn(a) == 2 * (a % 0x8000_0000) + a / 0x8000_0000
  {
  }

  /** Only all zeros and all ones look the same turned. */
  lemma TurnFixes(v: word)
    ensures Turn(v) == v <==> v == 0 || v == 0xffff_ffff
  {
  }

  lemma {:induction false} AllOnes(a: nat, b: nat, n: nat)
    requires a < Pow2(n) && b < Pow2(n)
    ensures Xor(a, b) == Pow2(n) - 1 <==> a + b == Pow2(n) - 1
    decreases n
  {
    XorParts(a, b);
    if n > 0 { AllOnes(a / 2, b / 2, n - 1); }
  }

  /** Two blocks that change places are found out, unless their CRCs are the same or complements of each other. */
  lemma OrderFound(a: word, b: word)
    ensures Combine(Combine(0, a), b) == Combine(Combine(0, b), a) <==> a == b || a == 0xffff_ffff - b
  {
    hide *;
    FirstCombine(a);
    FirstCombine(b);
    CombineIs(a, b);
    CombineIs(b, a);
    var w := Xor(a, b);
    XorNothing(Xor(Turn(a), b), Xor(Turn(b), a));
    XorFour(Turn(a), b, Turn(b), a);
    TurnLinear(a, b);
    XorSwaps(a, b);
    XorNothing(Turn(w), w);
    TurnFixes(w);
    XorNothing(a, b);
    Pow2Values();
    AllOnes(a, b, 32);
  }

  lemma FirstCombine(a: word)
    ensures Combine(0, a) == a
  {
    XorNone(a);
    XorSwaps(0, a);
    CombineIs(0, a);
  }
}
