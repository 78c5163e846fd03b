/** Bit strings, most significant bit first, and the encoder's bit buffer. */
module Bits {
  import opened Base

  /** The number a bit string spells. */
  function Val(b: seq<bool>): nat {
    if b == [] then 0 else 2 * Val(b[..|b| - 1]) + if b[|b| - 1] then 1 else 0
  }

  /** The low `n` bits of `v`. */
  function ToBits(v: nat, n: nat): (b: seq<bool>)
    ensures |b| == n
  {
    if n == 0 then [] else ToBits(v / 2, n - 1) + [v % 2 == 1]
  }

  lemma {:induction false} ValBound(b: seq<bool>)
    ensures Val(b) < Pow2(|b|)
  {
    if b != [] {
      ValBound(b[..|b| - 1]);
    }
  }

  lemma {:induction false} ValOfBits(v: nat, n: nat)
    requires v < Pow2(n)
    ensures Val(ToBits(v, n)) == v
  {
    if n > 0 {
      ValOfBits(v / 2, n - 1);
      assert ToBits(v, n)[..n - 1] == ToBits(v / 2, n - 1);
    }
  }

  lemma {:induction false} BitsOfVal(b: seq<bool>)
    ensures ToBits(Val(b), |b|) == b
  {
    if b != [] {
      BitsOfVal(b[..|b| - 1]);
      assert b == b[..|b| - 1] + [b[|b| - 1]];
    }
  }

  lemma {:induction false} ValAppend(a: seq<bool>, b: seq<bool>)
    ensures Val(a + b) == Val(a) * Pow2(|b|) + Val(b)
  {
    if b == [] {
      assert a + b == a;
    } else {
      var c := b[..|b| - 1];
      ValAppend(a, c);
      assert (a + b)[..|a + b| - 1] == a + c;
      Halve(Val(a), Pow2(|c|));
    }
  }

  lemma Halve(v: int, p: int)
    ensures 2 * (v * p) == v * (2 * p)
  {
  }

  /** Splitting a bit string splits its value. */
  lemma ValSplit(b: seq<bool>, k: nat)
    requires k <= |b|
    ensures Val(b) == Val(b[..k]) * Pow2(|b| - k) + Val(b[k..])
    ensures Val(b[k..]) < Pow2(|b| - k)
    ensures Val(b[..k]) == Val(b) / Pow2(|b| - k)
  {
    hide *;
    var s, t := b[..k], b[k..];
    assert b == s + t;
    ValAppend(s, t);
    ValBound(t);
    QuotientIs(Val(b), Val(s), Pow2(|b| - k), Val(t));
  }

  /** The bits of a byte string. */
  function Unpack(s: seq<byte>): (b: seq<bool>)
    ensures |b| == 8 * |s|
  {
    if s == [] then [] else Unpack(s[..|s| - 1]) + ToBits(s[|s| - 1], 8)
  }

  lemma {:induction false} UnpackAppend(s: seq<byte>, t: seq<byte>)
    ensures Unpack(s + t) == Unpack(s) + Unpack(t)
  {
    if t == [] {
      assert s + t == s;
    } else {
      UnpackAppend(s, t[..|t| - 1]);
      assert (s + t)[..|s + t| - 1] == s + t[..|t| - 1];
    }
  }

  function Zeros(n: nat): (z: seq<bool>)
    ensures |z| == n && forall i :: 0 <= i < n ==> !z[i]
  {
    seq(n, _ => false)
  }

  lemma {:induction false} ValZeros(n: nat)
    ensures Val(Zeros(n)) == 0
  {
    if n > 0 {
      ValZeros(n - 1);
      assert Zeros(n)[..n - 1] == Zeros(n - 1);
    }
  }

  /** The buffer's top `live` bits are the bits that have not yet gone out as bytes. */
  ghost predicate Buffered(zbits: seq<byte>, bits: seq<bool>, live: int, buff: int) {
    && 0 <= live <= 32 && |bits| == 8 * |zbits| + live
    && bits[..8 * |zbits|] == Unpack(zbits)
    && buff == Val(bits[8 * |zbits|..]) * Pow2(32 - live)
  }

  lemma ByteOut(zbits: seq<byte>, bits: seq<bool>, live: int, buff: int)
    requires Buffered(zbits, bits, live, buff) && live >= 8
    ensures 0 <= buff / 0x100_0000 < 256
    ensures Buffered(zbits + [buff / 0x100_0000], bits, live - 8, buff * 256 % 0x1_0000_0000)
  {
    TopByte(bits[8 * |zbits|..], buff);
    ByteMoves(zbits, bits, live, buff / 0x100_0000, buff * 256 % 0x1_0000_0000);
  }

  lemma ByteMoves(zbits: seq<byte>, bits: seq<bool>, live: int, z: byte, rest: int)
    requires 8 <= live <= 32 && |bits| == 8 * |zbits| + live && bits[..8 * |zbits|] == Unpack(zbits)
    requires var pend := bits[8 * |zbits|..];
             ToBits(z, 8) == pend[..8] && rest == Val(pend[8..]) * Pow2(32 - (|pend| - 8))
    ensures Buffered(zbits + [z], bits, live - 8, rest)
  {
    UnpackOne(zbits, z);
    hide Val, ToBits, Pow2, Unpack;
    var k, pend := 8 * |zbits|, bits[8 * |zbits|..];
    assert bits[..k + 8] == bits[..k] + pend[..8];
    assert pend[8..] == bits[k + 8..];
  }

  lemma UnpackOne(s: seq<byte>, z: byte)
    ensures Unpack(s + [z]) == Unpack(s) + ToBits(z, 8)
  {
    assert (s + [z])[..|s|] == s;
  }

  /** A last, partial byte: its low bits are zero. */
  lemma LastByte(zbits: seq<byte>, bits: seq<bool>, live: int, buff: int)
    requires Buffered(zbits, bits, live, buff) && 0 < live < 8
    ensures 0 <= buff / 0x100_0000 < 256
    ensures Unpack(zbits + [buff / 0x100_0000]) == bits + Zeros(8 - live)
  {
    hide Val, ToBits, Pow2, Unpack, Zeros;
    var pend, pad := bits[8 * |zbits|..], Zeros(8 - live);
    PadByte(pend, 8 - live);
    TopByte(pend + pad, buff);
    UnpackOne(zbits, buff / 0x100_0000);
    assert (pend + pad)[..8] == pend + pad;
    assert bits == bits[..8 * |zbits|] + pend;
  }

  lemma WordIn(zbits: seq<byte>, bits: seq<bool>, live: int, buff: int, n: nat, v: nat)
    requires Buffered(zbits, bits, live, buff) && live + n <= 32 && v < Pow2(n)
    ensures Buffered(zbits, bits + ToBits(v, n), live + n, buff + v * Pow2(32 - live - n))
  {
    hide Val, ToBits, Pow2, Unpack;
    var k, pend := 8 * |zbits|, bits[8 * |zbits|..];
    JoinWords(pend, v, n);
    assert (bits + ToBits(v, n))[k..] == pend + ToBits(v, n);
    assert (bits + ToBits(v, n))[..k] == bits[..k];
  }

  /**
   * The part of the compressor state behind `bsW`: a 32-bit buffer whose top `bsLive` bits are waiting,
   * and the bytes already written. Every `|` of the source joins words with no bit in common, so it is
   * written as a sum; a left shift drops what leaves the 32 bits.
   */
  class BitSink {
    var bsBuff: int
    var bsLive: int
    var zbits: seq<byte>
    /** All bits written since `zbits` was last emptied. */
    ghost var bits: seq<bool>

    ghost predicate Valid()
      reads this
    {
      Buffered(zbits, bits, bsLive, bsBuff)
    }

    /** `BZ2_bsInitWrite`. */
    constructor ()
      ensures Valid() && bits == [] && zbits == [] && bsLive == 0
    {
      bsBuff, bsLive, zbits, bits := 0, 0, [], [];
    }

    /** One turn of bsNEEDW: the top byte of the buffer goes out. */
    method PutByte()
      requires Valid() && bsLive >= 8
      modifies this
      ensures Valid() && bits == old(bits) && bsLive == old(bsLive) - 8 && |zbits| == old(|zbits|) + 1
    {
      ByteOut(zbits, bits, bsLive, bsBuff);
      hide Buffered;
      zbits := zbits + [bsBuff / 0x100_0000];
      bsBuff := bsBuff * 256 % 0x1_0000_0000;
      bsLive := bsLive - 8;
    }

    method NeedW()
      requires Valid()
      modifies this
      ensures Valid() && bits == old(bits) && bsLive < 8
    {
      while bsLive >= 8
        invariant Valid() && bits == old(bits)
        decreases bsLive
      {
        PutByte();
      }
    }

    /** `bsW`: appends the low `n` bits of `v`. */
    method W(n: int, v: int)
      requires Valid() && 0 <= n <= 24 && 0 <= v < Pow2(n)
      modifies this
      ensures Valid() && bits == old(bits) + ToBits(v, n)
    {
      NeedW();
      WordIn(zbits, bits, bsLive, bsBuff, n, v);
      hide Buffered;
      bsBuff := bsBuff + v * Pow2(32 - bsLive - n);
      bsLive := bsLive + n;
      bits := bits + ToBits(v, n);
    }

    /** `bsPutUChar`. */
    method PutUChar(c: byte)
      requires Valid()
      modifies this
      ensures Valid() && bits == old(bits) + ToBits(c, 8)
    {
      Pow2Values();
      W(8, c);
    }

    /** `bsPutUInt32`. */
    method PutUInt32(u: int)
      requires Valid() && 0 <= u < 0x1_0000_0000
      modifies this
      ensures Valid() && bits == old(bits) + ToBits(u, 32)
    {
      Pow2Values();
      hide Valid, ToBits, Pow2;
      W(8, u / 0x100_0000 % 256);
      W(8, u / 0x1_0000 % 256);
      W(8, u / 0x100 % 256);
      W(8, u % 256);
      FourBytes(u);
    }

    /** `numZ = 0`: the bytes written so far have been taken away; the bits still in the buffer stay. */
    method Empty()
      requires Valid()
      modifies this
      ensures Valid() && zbits == [] && Unpack(old(zbits)) + bits == old(bits)
    {
      hide Val, Pow2;
      ghost var k := 8 * |zbits|;
      assert bits == bits[..k] + bits[k..];
      bits := bits[k..];
      zbits := [];
      assert bits[0..] == bits && bits[..0] == [];
    }

    /** `bsFinishWrite`: the last byte is filled up with zero bits; the buffer is then spent. */
    method FinishWrite()
      requires Valid()
      modifies this
      ensures bits == old(bits)
      ensures exists pad: nat :: pad < 8 && Unpack(zbits) == bits + Zeros(pad)
    {
      NeedW();
      if bsLive > 0 {
        LastByte(zbits, bits, bsLive, bsBuff);
        ghost var pad: nat := 8 - bsLive;
        hide Buffered, Zeros;
        zbits := zbits + [bsBuff / 0x100_0000];
        bsBuff := bsBuff * 256 % 0x1_0000_0000;
        bsLive := bsLive - 8;
        assert Unpack(zbits) == bits + Zeros(pad);
      } else {
        assert bits == bits[..8 * |zbits|];
        assert Unpack(zbits) == bits + Zeros(0);
      }
    }
  }

  lemma TopByte(pend: seq<bool>, buff: int)
    requires 8 <= |pend| <= 32 && buff == Val(pend) * Pow2(32 - |pend|)
    ensures 0 <= buff / 0x100_0000 < 256 && ToBits(buff / 0x100_0000, 8) == pend[..8]
    ensures buff * 256 % 0x1_0000_0000 == Val(pend[8..]) * Pow2(32 - (|pend| - 8))
  {
    hide *;
    var n := |pend|;
    ValSplit(pend, 8);
    ValBound(pend[..8]);
    BitsOfVal(pend[..8]);
    Pow2Values();
    Pow2Add(n - 8, 32 - n);
    Pow2Add(8, 32 - n);
    ShiftOut(Val(pend[..8]), Val(pend[8..]), Pow2(n - 8), Pow2(32 - n), buff);
  }

  /** Taking the top eight bits off a word whose bits end `p` places above the bottom. */
  lemma ShiftOut(hi: int, lo: int, m: int, p: int, buff: int)
    requires 0 <= hi < 256 && 0 <= lo < m && p >= 1 && m * p == 0x100_0000 && buff == (hi * m + lo) * p
    ensures buff / 0x100_0000 == hi
    ensures buff * 256 % 0x1_0000_0000 == lo * (256 * p)
  {
    var r := lo * p;
    assert buff == hi * (m * p) + r by { Gather(hi, lo, m, p); }
    LeadingDigit(lo, 0, m, 0, p);
    LeadingDigit(0, 0, lo, 0, p);
    assert buff / 0x100_0000 == hi && buff * 256 == hi * 0x1_0000_0000 + 256 * r;
    assert 256 * r == lo * (256 * p) by { Halve256(lo, p); }
  }

  lemma Gather(hi: int, lo: int, m: int, p: int)
    ensures (hi * m + lo) * p == hi * (m * p) + lo * p
  {
    assert hi * m * p == hi * (m * p);
  }

  lemma Halve256(lo: int, p: int)
    ensures 256 * (lo * p) == lo * (256 * p)
  {
  }

  lemma JoinWords(pend: seq<bool>, v: nat, n: nat)
    requires |pend| + n <= 32 && v < Pow2(n)
    ensures Val(pend) * Pow2(32 - |pend|) + v * Pow2(32 - |pend| - n)
            == Val(pend + ToBits(v, n)) * Pow2(32 - (|pend| + n))
  {
    hide *;
    ValAppend(pend, ToBits(v, n));
    ValOfBits(v, n);
    Pow2Add(n, 32 - |pend| - n);
    assert n + (32 - |pend| - n) == 32 - |pend| && 32 - |pend| - n == 32 - (|pend| + n);
    Regroup(Val(pend), v, Pow2(n), Pow2(32 - |pend| - n));
  }

  lemma Regroup(a: int, v: int, m: int, p: int)
    ensures a * (m * p) + v * p == (a * m + v) * p
  {
  }

  lemma PadByte(pend: seq<bool>, pad: nat)
    requires |pend| + pad == 8
    ensures Val(pend + Zeros(pad)) * Pow2(24) == Val(pend) * Pow2(32 - |pend|)
  {
    ValAppend(pend, Zeros(pad));
    ValZeros(pad);
    Pow2Add(pad, 24);
    hide Val, Pow2;
    Regroup(Val(pend), 0, Pow2(pad), Pow2(24));
  }

  /** `u >> n`. */
  function Shr(u: nat, n: nat): nat {
    if n == 0 then u else Shr(u / 2, n - 1)
  }

  lemma {:induction false} BitsTogether(u: nat, m: nat, n: nat)
    ensures ToBits(Shr(u, n), m) + ToBits(u, n) == ToBits(u, m + n)
    decreases n
  {
    if n == 0 {
      assert ToBits(u, 0) == [];
    } else {
      BitsTogether(u / 2, m, n - 1);
      assert ToBits(Shr(u, n), m) + ToBits(u, n) == (ToBits(Shr(u, n), m) + ToBits(u / 2, n - 1)) + [u % 2 == 1];
    }
  }

  lemma {:induction false} ShrAdd(u: nat, m: nat, n: nat)
    ensures Shr(Shr(u, m), n) == Shr(u, m + n)
    decreases m
  {
    if m > 0 {
      ShrAdd(u / 2, m - 1, n);
    }
  }

  lemma Shr8(u: nat)
    ensures Shr(u, 8) == u / 256
  {
    var v := u / 2 / 2 / 2 / 2;
    ShrAdd(u, 4, 4);
    Shr4(u);
    Shr4(u / 16);
  }

  lemma Shr4(u: nat)
    ensures Shr(u, 4) == u / 16
  {
    assert Shr(u, 4) == Shr(u / 2, 3);
    assert Shr(u / 2, 3) == Shr(u / 2 / 2, 2);
    assert Shr(u / 2 / 2, 2) == u / 2 / 2 / 2 / 2;
  }

  lemma Bits8(u: nat)
    ensures ToBits(u % 256, 8) == ToBits(u, 8)
  {
    Pow2Values();
    LowBits(u, 8);
  }

  lemma {:induction false} LowBits(u: nat, n: nat)
    ensures ToBits(u % Pow2(n), n) == ToBits(u, n)
  {
    if n > 0 {
      var p := Pow2(n - 1);
      LowBits(u / 2, n - 1);
      HalfLow(u, p);
      assert ToBits(u, n) == ToBits(u / 2, n - 1) + [u % 2 == 1];
    }
  }

  lemma HalfLow(u: nat, p: nat)
    requires p >= 1
    ensures u % (2 * p) / 2 == u / 2 % p && u % (2 * p) % 2 == u % 2
  {
    var q, r := u / (2 * p), u % (2 * p);
    assert u == q * (2 * p) + r;
    DoubleOut(q, p);
    QuotientIs(u / 2, q, p, r / 2);
  }

  lemma DoubleOut(q: int, p: int)
    ensures q * (2 * p) == 2 * (q * p)
  {
  }

  lemma FourBytes(u: nat)
    ensures ToBits(u / 0x100_0000 % 256, 8) + ToBits(u / 0x1_0000 % 256, 8) + ToBits(u / 0x100 % 256, 8)
            + ToBits(u % 256, 8)
         == ToBits(u, 32)
  {
    var (a, b, c) := (u / 0x100, u / 0x1_0000, u / 0x100_0000);
    hide ToBits, Shr;
    Bits8(u);
    Bits8(a);
    Bits8(b);
    Bits8(c);
    Shr8(u);
    Shr8(a);
    Shr8(b);
    BitsTogether(b, 8, 8);
    BitsTogether(a, 16, 8);
    BitsTogether(u, 24, 8);
    assert a / 256 == b && b / 256 == c;
  }
}
