/** The bits of one compressed block, section by section, in the order in which they are written. */
module BlockFormat {
  import opened Base
  import opened Bits
  import opened PrefixCode
  import opened MoveToFront
  import opened GenerateMtf

  const BZ_N_GROUPS := 6
  const BZ_G_SIZE := 50
  const BZ_MAX_SELECTORS := 2 + 900000 / 50

  /** The coding tables of a block, and for every group of fifty symbols the table that codes it. */
  datatype Tables = Tables(selectors: seq<byte>, lens: seq<seq<byte>>)

  ghost predicate GoodLengths(lens: seq<seq<byte>>, alphaSize: int) {
    forall t :: 0 <= t < |lens| ==> |lens[t]| == alphaSize && Lengths(lens[t])
  }

  ghost predicate GoodSelectors(selectors: seq<byte>, nGroups: int) {
    && 1 <= |selectors| <= BZ_MAX_SELECTORS
    && forall i :: 0 <= i < |selectors| ==> selectors[i] < nGroups
  }

  /** Tables as the format can carry them: 2..6 tables of lengths 1..20, every selector naming one of them. */
  ghost predicate GoodTables(t: Tables, alphaSize: int) {
    && 2 <= |t.lens| <= BZ_N_GROUPS && GoodLengths(t.lens, alphaSize) && GoodSelectors(t.selectors, |t.lens|)
  }

  /** The lengths of every table belong to a prefix code. */
  ghost predicate Decodable(lens: seq<seq<byte>>) {
    forall t :: 0 <= t < |lens| ==> Lengths(lens[t]) && Kraft(lens[t]) <= Pow2(20)
  }

  // ------------------------------------------------------------ the mapping table

  /** Which of the sixteen groups of sixteen byte values has a byte in use. */
  function Summary(inUse: seq<bool>): (s: seq<bool>)
    requires |inUse| == 256
    ensures |s| == 16
  {
    seq(16, i requires 0 <= i < 16 => true in inUse[16 * i..16 * i + 16])
  }

  function MappingTail(inUse: seq<bool>, i: nat): seq<bool>
    requires |inUse| == 256 && i <= 16
    decreases 16 - i
  {
    if i == 16 then []
    else
      var part := inUse[16 * i..16 * i + 16];
      (if true in part then part else []) + MappingTail(inUse, i + 1)
  }

  // ------------------------------------------------------------ selectors

  function Ones(n: nat): (b: seq<bool>)
    ensures |b| == n
  {
    if n == 0 then [] else [true] + Ones(n - 1)
  }

  function SelectorBits(mtf: seq<nat>): seq<bool> {
    if mtf == [] then [] else Ones(mtf[0]) + ([false] + SelectorBits(mtf[1..]))
  }

  /** Selectors as positions in a move-to-front list of the tables. */
  function SelectorMtf(pos: seq<byte>, selectors: seq<byte>): (m: seq<nat>)
    requires Within(selectors, pos)
    ensures |m| == |selectors|
    decreases |selectors|
  {
    if selectors == [] then []
    else
      WithinTail(selectors, pos);
      var j := IndexOf(pos, selectors[0]);
      [j] + SelectorMtf(Front(pos, j), selectors[1..])
  }

  /** The list 0, 1, .., n-1. */
  function FirstBytes(n: nat): (s: seq<byte>)
    requires n <= 256
    ensures |s| == n && forall i :: 0 <= i < n ==> s[i] as int == i
  {
    seq(n, i requires 0 <= i < n => i as byte)
  }

  lemma AllTables(selectors: seq<byte>, n: nat)
    requires n <= 256 && Under(selectors, n)
    ensures Within(selectors, FirstBytes(n))
  {
    forall i | 0 <= i < |selectors| ensures selectors[i] in FirstBytes(n) {
      assert FirstBytes(n)[selectors[i]] == selectors[i];
    }
  }

  // ------------------------------------------------------------ code lengths

  /** From one length to the next in steps of one: 10 is one up, 11 is one down. */
  function Steps(curr: int, target: int): seq<bool>
    decreases if curr < target then target - curr else curr - target
  {
    if curr < target then [true, false] + Steps(curr + 1, target)
    else if curr > target then [true, true] + Steps(curr - 1, target)
    else []
  }

  function DeltaBits(curr: int, len: seq<byte>): seq<bool>
    decreases |len|
  {
    if len == [] then [] else Steps(curr, len[0]) + ([false] + DeltaBits(len[0], len[1..]))
  }

  function TablesBits(lens: seq<seq<byte>>): seq<bool>
    requires forall t :: 0 <= t < |lens| ==> lens[t] != []
  {
    if lens == [] then [] else ToBits(lens[0][0], 5) + (DeltaBits(lens[0][0], lens[0]) + TablesBits(lens[1..]))
  }

  // ------------------------------------------------------------ the symbols

  /** Every symbol from the `k`-th on has a code in the table selected for its group of fifty. */
  ghost predicate Codable(t: Tables, syms: seq<int>) {
    && |syms| <= 50 * |t.selectors|
    && (forall k :: 0 <= k < |t.selectors| ==> t.selectors[k] as int < |t.lens|)
    && forall k :: 0 <= k < |syms| ==> 0 <= syms[k] < |t.lens[t.selectors[k / 50]]|
  }

  /** The codes of the symbols from the `k`-th on. */
  function CodesFrom(t: Tables, syms: seq<int>, k: nat): seq<bool>
    requires Codable(t, syms) && k <= |syms|
    decreases |syms| - k
  {
    if k == |syms| then [] else CodeBits(t.lens[t.selectors[k / 50]], syms[k]) + CodesFrom(t, syms, k + 1)
  }

  lemma NoCodes(t: Tables, syms: seq<int>)
    requires Codable(t, syms)
    ensures CodesFrom(t, syms, |syms|) == []
  {
  }

  // ------------------------------------------------------------ a whole block

  /**
   * Everything a block carries: its CRC, the row of the original block, the bytes in use, the tables, the last column.
   */
  datatype Block = Block(crc: int, origPtr: int, inUse: seq<bool>, tables: Tables, column: seq<byte>)

  ghost predicate ValidBlock(b: Block, limit: int) {
    && 0 <= b.crc < 0x1_0000_0000 && 0 <= b.origPtr < |b.column| <= limit && |b.inUse| == 256
    && (forall i :: 0 <= i < |b.column| ==> b.inUse[b.column[i]])
    && GoodTables(b.tables, |Used(b.inUse, 256)| + 2) && Decodable(b.tables.lens)
    && Codable(b.tables, BlockSymbols(b.inUse, b.column))
  }

  function BytesBits(s: seq<byte>): seq<bool> {
    if s == [] then [] else ToBits(s[0], 8) + BytesBits(s[1..])
  }

  const BLOCK_MAGIC: seq<byte> := [0x31, 0x41, 0x59, 0x26, 0x53, 0x59]
  const END_MAGIC: seq<byte> := [0x17, 0x72, 0x45, 0x38, 0x50, 0x90]

  ghost function MappingBits(b: Block): seq<bool>
    requires |b.inUse| == 256
  {
    Summary(b.inUse) + MappingTail(b.inUse, 0)
  }

  ghost function SelectorsBits(b: Block, limit: int): seq<bool>
    requires ValidBlock(b, limit)
  {
    AllTables(b.tables.selectors, |b.tables.lens|);
    ToBits(|b.tables.lens|, 3) + (ToBits(|b.tables.selectors|, 15)
      + SelectorBits(SelectorMtf(FirstBytes(|b.tables.lens|), b.tables.selectors)))
  }

  ghost function LengthsBits(b: Block, limit: int): seq<bool>
    requires ValidBlock(b, limit)
  {
    TablesBits(b.tables.lens)
  }

  ghost function SymbolsBits(b: Block, limit: int): seq<bool>
    requires ValidBlock(b, limit)
  {
    CodesFrom(b.tables, BlockSymbols(b.inUse, b.column), 0)
  }

  /** A block as `BZ2_compressBlock` writes it; the bit after the CRC says "not randomised". */
  ghost function BlockBits(b: Block, limit: int): seq<bool>
    requires ValidBlock(b, limit)
  {
    BytesBits(BLOCK_MAGIC) + (ToBits(b.crc, 32) + ([false] + (ToBits(b.origPtr, 24)
      + (MappingBits(b) + (SelectorsBits(b, limit) + (LengthsBits(b, limit) + SymbolsBits(b, limit)))))))
  }
}
