/** `sendMTFValues`: choosing coding tables for the symbols of a block, and writing tables and symbols. */
module SendMtf {
  import opened Base
  import opened Counting
  import opened Bits
  import opened PrefixCode
  import opened HuffmanTree
  import opened OptimalCode
  import opened HuffmanLengths
  import opened MoveToFront
  import opened GenerateMtf
  import opened BlockFormat

  const BZ_LESSER_ICOST: byte := 0
  const BZ_GREATER_ICOST: byte := 15
  const BZ_N_ITERS := 4

  /** The number of coding tables for a block of `nMTF` symbols. */
  function GroupsFor(nMTF: int): (n: int)
    ensures 2 <= n <= BZ_N_GROUPS
  {
    if nMTF < 200 then 2 else if nMTF < 600 then 3 else if nMTF < 1200 then 4 else if nMTF < 2400 then 5 else 6
  }

  /** Division as C does it, towards zero. */
  function Quotient(a: int, b: int): int
    requires b > 0
  {
    if a >= 0 then a / b else -((-a) / b)
  }

  ghost predicate Rows<T>(rows: seq<seq<T>>, n: int, width: int) {
    |rows| == n && forall t :: 0 <= t < n ==> |rows[t]| == width
  }

  // ------------------------------------------------------------ the choice of tables

  /** The sum of the first `n` frequencies. */
  ghost function SumTo(freq: seq<int>, n: nat): int
    requires n <= |freq|
  {
    if n == 0 then 0 else SumTo(freq, n - 1) + freq[n - 1]
  }

  lemma {:induction false} SumGrows(freq: seq<int>, a: nat, n: nat)
    requires a < n <= |freq| && forall i :: 0 <= i < n ==> freq[i] >= 0
    ensures SumTo(freq, a) + freq[n - 1] <= SumTo(freq, n)
  {
    if a < n - 1 { SumGrows(freq, a, n - 1); }
  }

  /** The frequencies are those of `total` symbols, the last of which occurs. */
  ghost predicate Frequent(freq: seq<int>, total: int, alphaSize: nat) {
    && 0 < alphaSize <= |freq| && SumTo(freq, alphaSize) == total && freq[alphaSize - 1] >= 1
    && forall i :: 0 <= i < alphaSize ==> freq[i] >= 0
  }

  /** The `k`-th table from the last one down is cheap on the symbols from one bound to the next, and dear elsewhere. */
  ghost predicate CheapRow(lens: seq<seq<byte>>, nGroups: int, alphaSize: nat, bounds: seq<int>, k: nat)
    requires k < nGroups == |lens| && k + 1 < |bounds|
  {
    && 0 <= bounds[k] <= bounds[k + 1] <= alphaSize == |lens[nGroups - 1 - k]|
    && CheapIn(lens[nGroups - 1 - k], bounds[k], bounds[k + 1])
  }

  ghost predicate CheapIn(row: seq<byte>, lo: int, hi: int) {
    forall v :: 0 <= v < |row| ==> row[v] == if lo <= v < hi then 0 else 15
  }

  ghost predicate CheapOn(lens: seq<seq<byte>>, nGroups: int, alphaSize: nat, bounds: seq<int>, done: nat) {
    && Rows(lens, nGroups, alphaSize) && done <= nGroups && |bounds| == done + 1 && bounds[0] == 0
    && forall k :: 0 <= k < done ==> CheapRow(lens, nGroups, alphaSize, bounds, k)
  }

  lemma CheapOnNext(lens: seq<seq<byte>>, nGroups: int, alphaSize: nat, bounds: seq<int>, done: nat, row: seq<byte>,
      ge: int)
    requires CheapOn(lens, nGroups, alphaSize, bounds, done) && done < nGroups && |row| == alphaSize
    requires 0 <= bounds[done] <= ge + 1 <= alphaSize
    requires forall v :: 0 <= v < alphaSize ==> row[v] == if bounds[done] <= v <= ge then 0 else 15
    ensures CheapOn(lens[nGroups - 1 - done := row], nGroups, alphaSize, bounds + [ge + 1], done + 1)
  {
    var (r, b) := (lens[nGroups - 1 - done := row], bounds + [ge + 1]);
    forall k | 0 <= k < done + 1 ensures CheapRow(r, nGroups, alphaSize, b, k) {
      if k < done {
        assert CheapRow(lens, nGroups, alphaSize, bounds, k);
        assert r[nGroups - 1 - k] == lens[nGroups - 1 - k];
      }
    }
  }

  /** The end of one range of symbols: so many that their share of the remaining frequencies is reached. */
  method RangeEnd(mtfFreq: array<int>, remF: int, nPart: int, nGroups: int, gs: int, alphaSize: int)
      returns (ge: int, aFreq: int)
    requires 0 < nPart <= nGroups && 0 <= gs <= alphaSize <= mtfFreq.Length && 0 < alphaSize
    ensures gs - 1 <= ge < alphaSize && aFreq == SumTo(mtfFreq[..], ge + 1) - SumTo(mtfFreq[..], gs)
    ensures nPart == 1 ==> ge == alphaSize - 1 || aFreq >= remF
  {
    var tFreq := Quotient(remF, nPart);
    ge, aFreq := gs - 1, 0;
    while aFreq < tFreq && ge < alphaSize - 1
      invariant gs - 1 <= ge < alphaSize && aFreq == SumTo(mtfFreq[..], ge + 1) - SumTo(mtfFreq[..], gs)
      decreases alphaSize - ge
    {
      ge := ge + 1;
      aFreq := aFreq + mtfFreq[ge];
    }
    if ge > gs && nPart != nGroups && nPart != 1 && (nGroups - nPart) % 2 == 1 {
      aFreq := aFreq - mtfFreq[ge];
      ge := ge - 1;
    }
  }

  /**
   * The first tables: cheap on one range of symbols each, ranges of about equal total frequency. No symbol is cheap in
   * two tables, and every symbol is cheap in one if the frequencies are those of the symbols to be coded.
   */
  method InitialTables(mtfFreq: array<int>, nMTF: int, nGroups: int, alphaSize: int)
      returns (lens: seq<seq<byte>>, ghost bounds: seq<int>)
    requires 2 <= nGroups <= BZ_N_GROUPS && 0 < alphaSize <= mtfFreq.Length
    ensures Rows(lens, nGroups, alphaSize) && CheapOn(lens, nGroups, alphaSize, bounds, nGroups)
    ensures Frequent(mtfFreq[..], nMTF, alphaSize) ==> bounds[nGroups] == alphaSize
  {
    lens := seq(nGroups, _ => seq(alphaSize, _ => BZ_GREATER_ICOST));
    var nPart, remF, gs := nGroups, nMTF, 0;
    bounds := [0];
    hide CheapOn;
    NothingCheap(lens, nGroups, alphaSize);
    while nPart > 0
      invariant 0 <= nPart <= nGroups && 0 <= gs <= alphaSize && remF == nMTF - SumTo(mtfFreq[..], gs)
      invariant CheapOn(lens, nGroups, alphaSize, bounds, nGroups - nPart)
      invariant |bounds| == nGroups - nPart + 1 && bounds[nGroups - nPart] == gs && |lens| == nGroups
      invariant nPart == 0 && Frequent(mtfFreq[..], nMTF, alphaSize) ==> gs == alphaSize
    {
      var ge, aFreq := RangeEnd(mtfFreq, remF, nPart, nGroups, gs, alphaSize);
      if nPart == 1 && Frequent(mtfFreq[..], nMTF, alphaSize) && ge < alphaSize - 1 {
        LastRange(mtfFreq[..], nMTF, alphaSize, ge);
      }
      var row: seq<byte> := seq(alphaSize, v => if gs <= v <= ge then BZ_LESSER_ICOST else BZ_GREATER_ICOST);
      CheapOnNext(lens, nGroups, alphaSize, bounds, nGroups - nPart, row, ge);
      lens := lens[nPart - 1 := row];
      bounds := bounds + [ge + 1];
      nPart := nPart - 1;
      gs := ge + 1;
      remF := remF - aFreq;
    }
    CheapRows(lens, nGroups, alphaSize, bounds);
  }

  lemma NothingCheap(lens: seq<seq<byte>>, nGroups: int, alphaSize: nat)
    requires Rows(lens, nGroups, alphaSize) && nGroups >= 0
    ensures CheapOn(lens, nGroups, alphaSize, [0], 0)
  {
  }

  lemma CheapRows(lens: seq<seq<byte>>, nGroups: int, alphaSize: nat, bounds: seq<int>)
    requires nGroups >= 0 && CheapOn(lens, nGroups, alphaSize, bounds, nGroups)
    ensures Rows(lens, nGroups, alphaSize)
  {
  }

  /** A range with all the remaining symbols in it goes to the end. */
  lemma LastRange(freq: seq<int>, total: int, alphaSize: nat, ge: int)
    requires -1 <= ge < alphaSize <= |freq|
    requires Frequent(freq, total, alphaSize) && SumTo(freq, ge + 1) >= total
    ensures ge == alphaSize - 1
  {
    if ge + 1 < alphaSize { SumGrows(freq, ge + 1, alphaSize); }
  }

  ghost predicate InAlphabet(syms: seq<int>, alphaSize: int) {
    forall i :: 0 <= i < |syms| ==> 0 <= syms[i] < alphaSize
  }

  lemma SliceInAlphabet(syms: seq<int>, lo: nat, hi: nat, alphaSize: int)
    requires InAlphabet(syms, alphaSize) && lo <= hi <= |syms|
    ensures InAlphabet(syms[lo..hi], alphaSize)
  {
  }

  /** What the group gs..ge would cost with each table. */
  method GroupCosts(lens: seq<seq<byte>>, nGroups: int, mtfv: array<int>, gs: int, ge: int, ghost alphaSize: int)
      returns (cost: array<int>)
    requires 2 <= nGroups <= BZ_N_GROUPS && Rows(lens, nGroups, alphaSize)
    requires 0 <= gs <= ge < mtfv.Length && InAlphabet(mtfv[gs..ge + 1], alphaSize)
    ensures cost.Length == BZ_N_GROUPS && forall t :: 0 <= t < nGroups ==> cost[t] == Cost(lens[t], mtfv[gs..ge + 1])
  {
    cost := new int[BZ_N_GROUPS](_ => 0);
    ghost var syms := mtfv[gs..ge + 1];
    NoCost(lens);
    for i := gs to ge + 1
      invariant forall t :: 0 <= t < nGroups ==> cost[t] == Cost(lens[t], syms[..i - gs])
    {
      var icv := mtfv[i];
      assert icv == syms[i - gs];
      CostNext(lens, syms, i - gs, alphaSize);
      for t := 0 to nGroups
        invariant forall u :: 0 <= u < t ==> cost[u] == Cost(lens[u], syms[..i - gs + 1])
        invariant forall u :: t <= u < nGroups ==> cost[u] == Cost(lens[u], syms[..i - gs])
      {
        cost[t] := cost[t] + lens[t][icv];
      }
    }
    assert syms[..ge + 1 - gs] == syms;
  }

  /** The first of the tables that code the symbols in the fewest bits. */
  ghost predicate BestFor(lens: seq<seq<byte>>, bt: int, syms: seq<int>) {
    && 0 <= bt < |lens|
    && forall t :: 0 <= t < |lens| ==>
      Cost(lens[bt], syms) <= Cost(lens[t], syms) && (t < bt ==> Cost(lens[bt], syms) < Cost(lens[t], syms))
  }

  /** The table that codes the group gs..ge in the fewest bits; the first of several. */
  method BestTable(lens: seq<seq<byte>>, nGroups: int, mtfv: array<int>, gs: int, ge: int, ghost alphaSize: int)
      returns (bt: int)
    requires 2 <= nGroups <= BZ_N_GROUPS && Rows(lens, nGroups, alphaSize)
    requires 0 <= gs <= ge < mtfv.Length && ge - gs < BZ_G_SIZE && InAlphabet(mtfv[gs..ge + 1], alphaSize)
    ensures 0 <= bt < nGroups
    ensures BestFor(lens, bt, mtfv[gs..ge + 1])
  {
    var cost := GroupCosts(lens, nGroups, mtfv, gs, ge, alphaSize);
    CostBound(lens[0], mtfv[gs..ge + 1]);
    hide Cost;
    var bc := 999999999;
    bt := -1;
    for t := 0 to nGroups
      invariant if t == 0 then bt == -1 && bc == 999999999 else 0 <= bt < t && bc == cost[bt]
      invariant forall u :: 0 <= u < t ==> bc <= cost[u] && (u < bt ==> bc < cost[u])
    {
      if cost[t] < bc { bc, bt := cost[t], t; }
    }
  }

  /** The bits a group of symbols takes with the given lengths. */
  function Cost(len: seq<byte>, syms: seq<int>): int {
    if syms == [] then 0
    else Cost(len, syms[..|syms| - 1]) + if 0 <= syms[|syms| - 1] < |len| then len[syms[|syms| - 1]] else 0
  }

  lemma NoCost(lens: seq<seq<byte>>)
    ensures forall t :: 0 <= t < |lens| ==> Cost(lens[t], []) == 0
  {
  }

  lemma CostNext(lens: seq<seq<byte>>, syms: seq<int>, k: nat, alphaSize: int)
    requires k < |syms| && InAlphabet(syms, alphaSize) && Rows(lens, |lens|, alphaSize)
    ensures forall t :: 0 <= t < |lens| ==>
            Cost(lens[t], syms[..k + 1]) == Cost(lens[t], syms[..k]) + lens[t][syms[k]] as int
  {
    assert syms[..k + 1][..k] == syms[..k];
  }

  lemma {:induction false} CostBound(len: seq<byte>, syms: seq<int>)
    ensures 0 <= Cost(len, syms) <= 255 * |syms|
  {
    if syms != [] {
      CostBound(len, syms[..|syms| - 1]);
    }
  }

  /** Every group of fifty symbols has the table that is best for it. */
  ghost predicate Choice(lens: seq<seq<byte>>, selectors: seq<byte>, syms: seq<int>) {
    forall g :: 0 <= g < |selectors| ==>
      50 * g <= |syms| && BestFor(lens, selectors[g] as int, syms[50 * g..Min(50 * g + 50, |syms|)])
  }

  lemma ChoiceOn(lens: seq<seq<byte>>, selectors: seq<byte>, syms: seq<int>, bt: byte, group: seq<int>)
    requires Choice(lens, selectors, syms) && |syms| == 50 * |selectors| && |group| <= 50
    requires BestFor(lens, bt as int, group)
    ensures Choice(lens, selectors + [bt], syms + group)
  {
    hide BestFor;
    var all := syms + group;
    forall g | 0 <= g < |selectors| + 1
      ensures BestFor(lens, (selectors + [bt])[g] as int, all[50 * g..Min(50 * g + 50, |all|)])
    {
      if g < |selectors| {
        assert all[50 * g..50 * g + 50] == syms[50 * g..50 * g + 50];
      } else {
        assert all[50 * g..|all|] == group;
      }
    }
  }

  /** Symbol frequencies per table, with room for `total` symbols in all. */
  ghost predicate Frequencies(rfreq: seq<seq<int>>, n: int, alphaSize: int, total: int) {
    && Rows(rfreq, n, alphaSize) && 0 <= alphaSize
    && forall t :: 0 <= t < n ==> NonNegative(rfreq[t]) && FreqSum(rfreq[t], alphaSize) <= alphaSize + total
  }

  ghost predicate NonNegative(row: seq<int>) {
    forall i :: 0 <= i < |row| ==> row[i] >= 0
  }

  lemma {:induction false} FreqUp(row: seq<int>, v: nat, n: nat)
    requires v < |row| && n <= |row| && NonNegative(row)
    ensures FreqSum(row[v := row[v] + 1], n) <= FreqSum(row, n) + if v < n then 1 else 0
  {
    if n > 0 {
      FreqUp(row, v, n - 1);
    }
  }

  lemma {:induction false} FreqNone(row: seq<int>, n: nat)
    requires n <= |row| && forall i :: 0 <= i < |row| ==> row[i] == 0
    ensures FreqSum(row, n) == n
  {
    if n > 0 {
      FreqNone(row, n - 1);
    }
  }

  lemma CountOne(rfreq: seq<seq<int>>, n: int, alphaSize: int, total: int, bt: int, v: int)
    requires Frequencies(rfreq, n, alphaSize, total) && 0 <= bt < n && 0 <= v < alphaSize
    ensures Frequencies(rfreq[bt := rfreq[bt][v := rfreq[bt][v] + 1]], n, alphaSize, total + 1)
  {
    FreqUp(rfreq[bt], v, alphaSize);
  }

  lemma StartCounts(n: int, alphaSize: nat)
    requires 0 <= n
    ensures Frequencies(seq(n, _ => seq(alphaSize, _ => 0)), n, alphaSize, 0)
  {
    FreqNone(seq(alphaSize, _ => 0), alphaSize);
  }

  /** How often symbol `v` occurs in the groups of fifty whose selector names table `t`. */
  ghost function Occurrences(selectors: seq<byte>, syms: seq<int>, t: int, v: int): nat
    requires |syms| <= 50 * |selectors|
  {
    if syms == [] then 0
    else
      var i := |syms| - 1;
      Occurrences(selectors, syms[..i], t, v) + if selectors[i / 50] as int == t && syms[i] == v then 1 else 0
  }

  lemma {:induction false} OneMoreGroup(selectors: seq<byte>, bt: byte, syms: seq<int>, t: int, v: int)
    requires |syms| <= 50 * |selectors|
    ensures Occurrences(selectors + [bt], syms, t, v) == Occurrences(selectors, syms, t, v)
  {
    if syms != [] {
      OneMoreGroup(selectors, bt, syms[..|syms| - 1], t, v);
    }
  }

  ghost function Counts(selectors: seq<byte>, syms: seq<int>, t: int, alphaSize: nat): (row: seq<int>)
    requires |syms| <= 50 * |selectors|
    ensures |row| == alphaSize
  {
    seq(alphaSize, v => Occurrences(selectors, syms, t, v))
  }

  /** Every table's row counts the symbols of the groups that chose the table. */
  ghost predicate Counted(rfreq: seq<seq<int>>, n: int, alphaSize: nat, selectors: seq<byte>, syms: seq<int>) {
    |rfreq| == n && |syms| <= 50 * |selectors|
    && forall t :: 0 <= t < n ==> rfreq[t] == Counts(selectors, syms, t, alphaSize)
  }

  lemma NothingCounted(n: nat, alphaSize: nat)
    ensures Counted(seq(n, _ => seq(alphaSize, _ => 0)), n, alphaSize, [], [])
  {
    forall t | 0 <= t < n ensures seq(alphaSize, _ => 0) == Counts([], [], t, alphaSize) {
    }
  }

  lemma CountedOn(rfreq: seq<seq<int>>, n: int, alphaSize: nat, selectors: seq<byte>, bt: byte, syms: seq<int>)
    requires Counted(rfreq, n, alphaSize, selectors, syms)
    ensures Counted(rfreq, n, alphaSize, selectors + [bt], syms)
  {
    forall t | 0 <= t < n ensures rfreq[t] == Counts(selectors + [bt], syms, t, alphaSize) {
      forall v | 0 <= v < alphaSize ensures rfreq[t][v] == Counts(selectors + [bt], syms, t, alphaSize)[v] {
        OneMoreGroup(selectors, bt, syms, t, v);
      }
    }
  }

  lemma CountedOne(rfreq: seq<seq<int>>, n: int, alphaSize: nat, selectors: seq<byte>, syms: seq<int>, v: int)
    requires Counted(rfreq, n, alphaSize, selectors, syms) && |syms| < 50 * |selectors| && 0 <= v < alphaSize
    requires selectors[|syms| / 50] as int < n
    ensures var bt := selectors[|syms| / 50];
            Counted(rfreq[bt := rfreq[bt][v := rfreq[bt][v] + 1]], n, alphaSize, selectors, syms + [v])
  {
    var bt := selectors[|syms| / 50];
    var r := rfreq[bt := rfreq[bt][v := rfreq[bt][v] + 1]];
    assert (syms + [v])[..|syms|] == syms;
    forall t | 0 <= t < n ensures r[t] == Counts(selectors, syms + [v], t, alphaSize) {
      assert rfreq[t] == Counts(selectors, syms, t, alphaSize);
    }
  }

  method CountGroup(rfreq0: seq<seq<int>>, mtfv: array<int>, gs: int, ge: int, bt: byte, ghost n: int,
      ghost alphaSize: int, ghost selectors: seq<byte>)
    returns (rfreq: seq<seq<int>>)
    requires Frequencies(rfreq0, n, alphaSize, gs) && 0 <= bt as int < n && 0 <= alphaSize
    requires 0 <= gs <= ge < mtfv.Length && InAlphabet(mtfv[gs..ge + 1], alphaSize)
    requires gs == 50 * (|selectors| - 1) && ge < gs + 50 && selectors[|selectors| - 1] == bt
    requires Counted(rfreq0, n, alphaSize, selectors, mtfv[..gs])
    ensures Frequencies(rfreq, n, alphaSize, ge + 1) && Counted(rfreq, n, alphaSize, selectors, mtfv[..ge + 1])
  {
    rfreq := rfreq0;
    hide Counted, Frequencies, Occurrences;
    for i := gs to ge + 1
      invariant Frequencies(rfreq, n, alphaSize, i) && Counted(rfreq, n, alphaSize, selectors, mtfv[..i])
    {
      assert mtfv[i] == mtfv[gs..ge + 1][i - gs];
      RowOf(rfreq, n, alphaSize, i, bt as int);
      CountOne(rfreq, n, alphaSize, i, bt as int, mtfv[i]);
      CountedOne(rfreq, n, alphaSize, selectors, mtfv[..i], mtfv[i]);
      assert mtfv[..i + 1] == mtfv[..i] + [mtfv[i]];
      rfreq := rfreq[bt := rfreq[bt][mtfv[i] := rfreq[bt][mtfv[i]] + 1]];
    }
  }

  lemma RowOf(rfreq: seq<seq<int>>, n: int, alphaSize: int, total: int, t: int)
    requires Frequencies(rfreq, n, alphaSize, total) && 0 <= t < n
    ensures |rfreq| == n && |rfreq[t]| == alphaSize
  {
  }

  /** Selectors for the groups of the first `gs` symbols. */
  ghost predicate SelectorsFor(selectors: seq<byte>, gs: int, nMTF: int, nGroups: int) {
    && (forall i :: 0 <= i < |selectors| ==> selectors[i] as int < nGroups)
    && 0 <= gs <= nMTF && gs == Min(nMTF, 50 * |selectors|) && 50 * |selectors| < nMTF + 50
  }

  /** One pass over the block: every group takes its best table, and the tables' symbols are counted. */
  method Pass(lens: seq<seq<byte>>, nGroups: int, mtfv: array<int>, nMTF: int, alphaSize: int)
    returns (selectors: seq<byte>, rfreq: seq<seq<int>>)
    requires 2 <= nGroups <= BZ_N_GROUPS && Rows(lens, nGroups, alphaSize) && 2 <= alphaSize
    requires 0 < nMTF <= mtfv.Length && InAlphabet(mtfv[..nMTF], alphaSize)
    ensures SelectorsFor(selectors, nMTF, nMTF, nGroups) && Frequencies(rfreq, nGroups, alphaSize, nMTF)
    ensures Counted(rfreq, nGroups, alphaSize, selectors, mtfv[..nMTF])
    ensures Choice(lens, selectors, mtfv[..nMTF])
  {
    rfreq := seq(nGroups, _ => seq(alphaSize, _ => 0));
    StartCounts(nGroups, alphaSize);
    NothingCounted(nGroups, alphaSize);
    selectors := [];
    var gs := 0;
    assert mtfv[..0] == [];
    hide Frequencies, Counted, Occurrences;
    NoChoice(lens);
    hide Choice, BestFor;
    while gs < nMTF
      invariant SelectorsFor(selectors, gs, nMTF, nGroups) && Frequencies(rfreq, nGroups, alphaSize, gs)
      invariant Counted(rfreq, nGroups, alphaSize, selectors, mtfv[..gs])
      invariant Choice(lens, selectors, mtfv[..gs])
      decreases nMTF - gs
    {
      var ge := gs + BZ_G_SIZE - 1;
      if ge >= nMTF { ge := nMTF - 1; }
      SliceInAlphabet(mtfv[..nMTF], gs, ge + 1, alphaSize);
      assert mtfv[..nMTF][gs..ge + 1] == mtfv[gs..ge + 1];
      var bt := BestTable(lens, nGroups, mtfv, gs, ge, alphaSize);
      CountedOn(rfreq, nGroups, alphaSize, selectors, bt, mtfv[..gs]);
      ChoiceOn(lens, selectors, mtfv[..gs], bt, mtfv[gs..ge + 1]);
      assert mtfv[..gs] + mtfv[gs..ge + 1] == mtfv[..ge + 1];
      selectors := selectors + [bt];
      rfreq := CountGroup(rfreq, mtfv, gs, ge, bt, nGroups, alphaSize, selectors);
      gs := ge + 1;
    }
  }

  lemma NoChoice(lens: seq<seq<byte>>)
    ensures Choice(lens, [], [])
  {
  }

  lemma Roomy(rfreq: seq<seq<int>>, n: int, alphaSize: int, total: int, t: int)
    requires Frequencies(rfreq, n, alphaSize, total) && 0 <= t < n && alphaSize <= 258 && total <= 900001
    ensures |rfreq[t]| == alphaSize && FreqSum(rfreq[t], alphaSize) < 0x80_0000 && NonNegative(rfreq[t])
  {
  }

  /** Lengths of at most 17 bits that leave no code unused. */
  ghost predicate CompleteCode(len: seq<byte>) {
    Lengths(len) && Kraft(len) == Pow2(20) && forall s :: 0 <= s < |len| ==> len[s] <= 17
  }

  /** Lengths fitted to counts: no prefix code is shorter, unless the counts are so many that some may be halved. */
  ghost predicate Fitted(len: seq<byte>, row: seq<int>) {
    FreqSum(row, |row|) < Fib(20) ==> Shortest(Halved(row, 0), len)
  }

  ghost predicate AllFitted(lens: seq<seq<byte>>, n: int, alphaSize: nat, selectors: seq<byte>, syms: seq<int>)
    requires |syms| <= 50 * |selectors|
  {
    0 <= n <= |lens| && forall t :: 0 <= t < n ==> Fitted(lens[t], Counts(selectors, syms, t, alphaSize))
  }

  lemma FittedNext(lens: seq<seq<byte>>, n: int, alphaSize: nat, selectors: seq<byte>, syms: seq<int>, len: seq<byte>)
    requires |syms| <= 50 * |selectors| && AllFitted(lens, n, alphaSize, selectors, syms) && n < |lens|
    requires Fitted(len, Counts(selectors, syms, n, alphaSize))
    ensures AllFitted(lens[n := len], n + 1, alphaSize, selectors, syms)
  {
    hide Fitted, Counts;
  }

  lemma RowCounted(rfreq: seq<seq<int>>, n: int, alphaSize: nat, selectors: seq<byte>, syms: seq<int>, t: int)
    requires Counted(rfreq, n, alphaSize, selectors, syms) && 0 <= t < n
    ensures |rfreq| == n && |syms| <= 50 * |selectors| && rfreq[t] == Counts(selectors, syms, t, alphaSize)
  {
  }

  ghost predicate Complete(lens: seq<seq<byte>>, n: int) {
    n <= |lens| && forall t :: 0 <= t < n ==> CompleteCode(lens[t])
  }

  /** New lengths for one table from its frequencies. */
  method Recompute(row: seq<int>, alphaSize: int) returns (len: seq<byte>)
    requires 2 <= alphaSize <= BZ_MAX_ALPHA_SIZE && |row| == alphaSize
    requires NonNegative(row) && FreqSum(row, alphaSize) < 0x80_0000
    ensures |len| == alphaSize && CompleteCode(len)
    ensures Fitted(len, row)
  {
    hide *;
    NonNegativeIs(row);
    var freq := new int[alphaSize](i requires 0 <= i < alphaSize => row[i]);
    var table := new byte[BZ_MAX_ALPHA_SIZE];
    assert freq[..] == row == freq[..alphaSize];
    ghost var halvings := MakeCodeLengths(table, freq, alphaSize, 17);
    len := table[..alphaSize];
    CompleteCodeIs(len);
    FittedIs(len, row);
  }

  lemma FittedIs(len: seq<byte>, row: seq<int>)
    ensures Fitted(len, row) <==> (FreqSum(row, |row|) < Fib(20) ==> Shortest(Halved(row, 0), len))
  {
    hide Fib;
  }

  lemma NonNegativeIs(row: seq<int>)
    ensures NonNegative(row) <==> forall i :: 0 <= i < |row| ==> row[i] >= 0
  {
  }

  lemma CompleteCodeIs(len: seq<byte>)
    requires Lengths(len) && Kraft(len) == Pow2(20) && forall s :: 0 <= s < |len| ==> len[s] <= 17
    ensures CompleteCode(len)
  {
  }

  /** One round: every group chooses among the tables, and every table is fitted to the groups that chose it. */
  ghost predicate Round(before: seq<seq<byte>>, after: seq<seq<byte>>, selectors: seq<byte>, alphaSize: nat,
      syms: seq<int>)
  {
    && Choice(before, selectors, syms) && |syms| <= 50 * |selectors| && |before| == |after|
    && Complete(after, |after|) && AllFitted(after, |after|, alphaSize, selectors, syms)
  }

  /** The tables before, between and after so many rounds; the selectors are those of the last one. */
  ghost predicate Rounds(tables: seq<seq<seq<byte>>>, chosen: seq<seq<byte>>, alphaSize: nat, syms: seq<int>) {
    |tables| == |chosen| + 1
    && forall i :: 0 <= i < |chosen| ==> Round(tables[i], tables[i + 1], chosen[i], alphaSize, syms)
  }

  lemma OneRound(tables: seq<seq<seq<byte>>>, chosen: seq<seq<byte>>, alphaSize: nat, syms: seq<int>,
      after: seq<seq<byte>>, selectors: seq<byte>)
    requires Rounds(tables, chosen, alphaSize, syms)
    requires Round(tables[|chosen|], after, selectors, alphaSize, syms)
    ensures Rounds(tables + [after], chosen + [selectors], alphaSize, syms)
  {
    hide Round;
    var (ts, cs) := (tables + [after], chosen + [selectors]);
    forall i | 0 <= i < |cs| ensures Round(ts[i], ts[i + 1], cs[i], alphaSize, syms) {
      if i < |chosen| { assert Round(tables[i], tables[i + 1], chosen[i], alphaSize, syms); }
    }
  }

  lemma NoRound(lens: seq<seq<byte>>, alphaSize: nat, syms: seq<int>)
    ensures Rounds([lens], [], alphaSize, syms)
  {
  }

  lemma RoundIs(before: seq<seq<byte>>, after: seq<seq<byte>>, selectors: seq<byte>, alphaSize: nat, syms: seq<int>)
    requires Choice(before, selectors, syms) && |syms| <= 50 * |selectors| && |before| == |after|
    requires Complete(after, |after|) && AllFitted(after, |after|, alphaSize, selectors, syms)
    ensures Round(before, after, selectors, alphaSize, syms)
  {
  }

  /** Four rounds of choosing tables for the groups and fitting the tables to the groups that chose them. */
  method ChooseTables(mtfv: array<int>, nMTF: int, mtfFreq: array<int>, alphaSize: int)
      returns (t: Tables, ghost tables: seq<seq<seq<byte>>>, ghost chosen: seq<seq<byte>>, ghost bounds: seq<int>)
    requires 3 <= alphaSize <= BZ_MAX_ALPHA_SIZE && alphaSize <= mtfFreq.Length
    requires 0 < nMTF <= mtfv.Length && nMTF <= 900001 && InAlphabet(mtfv[..nMTF], alphaSize)
    ensures GoodTables(t, alphaSize) && Decodable(t.lens) && Codable(t, mtfv[..nMTF])
    ensures |t.lens| == (if nMTF < 200 then 2 else if nMTF < 600 then 3 else if nMTF < 1200 then 4
                         else if nMTF < 2400 then 5 else 6)
    ensures 50 * (|t.selectors| - 1) < nMTF <= 50 * |t.selectors|
    ensures Complete(t.lens, |t.lens|)
    ensures AllFitted(t.lens, |t.lens|, alphaSize, t.selectors, mtfv[..nMTF])
    ensures |chosen| == 4 && |tables| == 5 && Rounds(tables, chosen, alphaSize, mtfv[..nMTF])
    ensures CheapOn(tables[0], |t.lens|, alphaSize, bounds, |t.lens|) && tables[4] == t.lens
            && chosen[3] == t.selectors
  {
    var nGroups := GroupsFor(nMTF);
    var lens;
    lens, bounds := InitialTables(mtfFreq, nMTF, nGroups, alphaSize);
    var selectors: seq<byte> := [];
    hide Frequencies, CompleteCode, FreqSum, Counted, Fitted, Occurrences, CheapOn, Rounds, Round, Choice;
    tables, chosen := [lens], [];
    NoRound(lens, alphaSize, mtfv[..nMTF]);
    for iter := 0 to BZ_N_ITERS
      invariant Rows(lens, nGroups, alphaSize)
      invariant iter > 0 ==> SelectorsFor(selectors, nMTF, nMTF, nGroups) && Complete(lens, nGroups)
      invariant iter > 0 ==> AllFitted(lens, nGroups, alphaSize, selectors, mtfv[..nMTF])
      invariant |chosen| == iter && |tables| == iter + 1 && Rounds(tables, chosen, alphaSize, mtfv[..nMTF])
      invariant CheapOn(tables[0], nGroups, alphaSize, bounds, nGroups) && tables[iter] == lens
      invariant iter > 0 ==> chosen[iter - 1] == selectors
    {
      var rfreq;
      selectors, rfreq := Pass(lens, nGroups, mtfv, nMTF, alphaSize);
      for k := 0 to nGroups
        invariant Rows(lens, nGroups, alphaSize)
        invariant Complete(lens, k) && AllFitted(lens, k, alphaSize, selectors, mtfv[..nMTF])
      {
        Roomy(rfreq, nGroups, alphaSize, nMTF, k);
        RowCounted(rfreq, nGroups, alphaSize, selectors, mtfv[..nMTF], k);
        var len := Recompute(rfreq[k], alphaSize);
        FittedNext(lens, k, alphaSize, selectors, mtfv[..nMTF], len);
        lens := lens[k := len];
      }
      RoundIs(tables[iter], lens, selectors, alphaSize, mtfv[..nMTF]);
      OneRound(tables, chosen, alphaSize, mtfv[..nMTF], lens, selectors);
      tables, chosen := tables + [lens], chosen + [selectors];
    }
    t := Tables(selectors, lens);
    TablesServe(t, mtfv[..nMTF], alphaSize);
  }

  lemma TablesServe(t: Tables, syms: seq<int>, alphaSize: int)
    requires 3 <= alphaSize <= BZ_MAX_ALPHA_SIZE && InAlphabet(syms, alphaSize) && 0 < |syms| <= 900001
    requires 2 <= |t.lens| <= BZ_N_GROUPS && Rows(t.lens, |t.lens|, alphaSize) && Complete(t.lens, |t.lens|)
    requires SelectorsFor(t.selectors, |syms|, |syms|, |t.lens|)
    ensures GoodTables(t, alphaSize) && Decodable(t.lens) && Codable(t, syms)
  {
    hide Kraft;
    assert forall k :: 0 <= k < |t.lens| ==> CompleteCode(t.lens[k]);
  }
}
