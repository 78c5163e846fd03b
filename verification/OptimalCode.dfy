/**
 * No prefix code is shorter than the tree that joins the two lightest roots at every step: Kraft's inequality for
 * sets of code words, and a lower bound that is carried from the single root back to the leaves.
 */
module OptimalCode {
  import opened Base
  import opened HuffmanTree

  // ------------------------------------------------------------ Kraft's inequality

  /** No word is the beginning of another. */
  ghost predicate Unambiguous(c: seq<seq<bool>>) {
    forall i, j :: 0 <= i < |c| && 0 <= j < |c| && i != j ==> !(c[i] <= c[j])
  }

  ghost predicate NoLonger(c: seq<seq<bool>>, n: nat) {
    forall i :: 0 <= i < |c| ==> |c[i]| <= n
  }

  /** The shares 2^(n - length) of those of the first `m` words that begin with `p`. */
  ghost function WordShares(c: seq<seq<bool>>, p: seq<bool>, n: nat, m: nat): nat
    requires NoLonger(c, n) && m <= |c|
  {
    if m == 0 then 0 else WordShares(c, p, n, m - 1) + if p <= c[m - 1] then Pow2(n - |c[m - 1]|) else 0
  }

  lemma {:induction false} LoneWord(c: seq<seq<bool>>, n: nat, m: nat, i: nat)
    requires NoLonger(c, n) && Unambiguous(c) && m <= |c| && i < |c|
    ensures WordShares(c, c[i], n, m) == if i < m then Pow2(n - |c[i]|) else 0
  {
    if m > 0 {
      LoneWord(c, n, m - 1, i);
    }
  }

  /** A word that begins with `p` and is not `p` goes on with a 0 or with a 1. */
  lemma GoesOn(p: seq<bool>, w: seq<bool>)
    requires p != w
    ensures p <= w <==> (p + [false] <= w || p + [true] <= w)
    ensures !(p + [false] <= w && p + [true] <= w)
  {
    BeginsWith(p, w, false);
    BeginsWith(p, w, true);
    WholeWord(p, w);
  }

  lemma BeginsWith(p: seq<bool>, w: seq<bool>, b: bool)
    ensures p + [b] <= w <==> p <= w && |p| < |w| && w[|p|] == b
  {
    if p + [b] <= w {
      assert w[..|p| + 1] == p + [b] && w[..|p|] == w[..|p| + 1][..|p|];
    }
  }

  lemma WholeWord(p: seq<bool>, w: seq<bool>)
    ensures p <= w ==> p == w || |p| < |w|
  {
  }

  lemma {:induction false} SharesSplit(c: seq<seq<bool>>, p: seq<bool>, n: nat, m: nat)
    requires NoLonger(c, n) && m <= |c| && p !in c
    ensures WordShares(c, p, n, m) == WordShares(c, p + [false], n, m) + WordShares(c, p + [true], n, m)
  {
    if m > 0 {
      SharesSplit(c, p, n, m - 1);
      GoesOn(p, c[m - 1]);
    }
  }

  lemma {:induction false} NoSuchWord(c: seq<seq<bool>>, p: seq<bool>, n: nat, m: nat)
    requires NoLonger(c, n) && m <= |c| && |p| == n && p !in c
    ensures WordShares(c, p, n, m) == 0
  {
    if m > 0 {
      NoSuchWord(c, p, n, m - 1);
      WholeWord(p, c[m - 1]);
    }
  }

  /** The words that begin with `p` have no more than the share of `p`. */
  lemma {:induction false} KraftInequality(c: seq<seq<bool>>, p: seq<bool>, n: nat)
    requires NoLonger(c, n) && Unambiguous(c) && |p| <= n
    ensures WordShares(c, p, n, |c|) <= Pow2(n - |p|)
    decreases n - |p|
  {
    if p in c {
      var i :| 0 <= i < |c| && c[i] == p;
      LoneWord(c, n, |c|, i);
    } else if |p| == n {
      NoSuchWord(c, p, n, |c|);
    } else {
      SharesSplit(c, p, n, |c|);
      KraftInequality(c, p + [false], n);
      KraftInequality(c, p + [true], n);
    }
  }

  // ------------------------------------------------------------ lengths for the roots of one stage

  /** 2^(n - length) for every node. */
  ghost function Shared(a: seq<int>, n: nat): (v: seq<int>)
    requires Within(a, n)
    ensures |v| == |a|
  {
    seq(|a|, k requires 0 <= k < |a| => Pow2(n - a[k]))
  }

  ghost predicate Within(a: seq<int>, n: nat) {
    forall k :: 0 <= k < |a| ==> 0 <= a[k] <= n
  }

  /** Weight times length for every node. */
  ghost function Priced(w: seq<int>, a: seq<int>): (v: seq<int>)
    requires |w| == |a|
    ensures |v| == |a|
  {
    seq(|a|, k requires 0 <= k < |a| => w[k] * a[k])
  }

  /** Lengths `a` for the roots of stage `t` that a prefix code could have. */
  ghost predicate Fits(p: seq<int>, t: nat, a: seq<int>, n: nat) {
    && t < |p| == |a| && Within(a, n) && OpenSum(Shared(a, n), p, t, t) <= Pow2(n)
  }

  ghost predicate RootAt(p: seq<int>, t: nat, k: int) {
    1 <= k <= t < |p| && Open(p, t, k)
  }

  ghost function Price(w: seq<int>, p: seq<int>, t: nat, a: seq<int>): int
    requires t < |w| == |p| == |a|
  {
    OpenSum(Priced(w, a), p, t, t)
  }

  lemma {:induction false} OpenUpdate(v: seq<int>, p: seq<int>, t: int, u: nat, k: int, x: int)
    requires u < |v| == |p| && 1 <= k < |v|
    ensures OpenSum(v[k := x], p, t, u) == OpenSum(v, p, t, u) + if k <= u && Open(p, t, k) then x - v[k] else 0
  {
    if u > 0 {
      OpenUpdate(v, p, t, u - 1, k, x);
    }
  }

  lemma {:induction false} OpenScaled(v: seq<int>, q: seq<int>, p: seq<int>, t: int, u: nat, d: int)
    requires u < |v| == |q| == |p| && forall k :: 1 <= k <= u && Open(p, t, k) ==> v[k] == q[k] * d
    ensures OpenSum(v, p, t, u) == OpenSum(q, p, t, u) * d
  {
    if u > 0 {
      OpenScaled(v, q, p, t, u - 1, d);
    }
  }

  /** Changing the length of one root. */
  lemma Changed(w: seq<int>, p: seq<int>, t: nat, a: seq<int>, n: nat, k: int, x: int)
    requires t < |w| == |p| == |a| && Within(a, n) && RootAt(p, t, k) && 0 <= x <= n
    ensures Within(a[k := x], n)
    ensures Price(w, p, t, a[k := x]) == Price(w, p, t, a) + w[k] * (x - a[k])
    ensures OpenSum(Shared(a[k := x], n), p, t, t) == OpenSum(Shared(a, n), p, t, t) + Pow2(n - x) - Pow2(n - a[k])
    ensures OpenSum(a[k := x], p, t, t) == OpenSum(a, p, t, t) + x - a[k]
  {
    hide Pow2;
    assert Priced(w, a[k := x]) == Priced(w, a)[k := w[k] * x];
    assert Shared(a[k := x], n) == Shared(a, n)[k := Pow2(n - x)];
    OpenUpdate(Priced(w, a), p, t, t, k, w[k] * x);
    OpenUpdate(Shared(a, n), p, t, t, k, Pow2(n - x));
    OpenUpdate(a, p, t, t, k, x);
  }

  /** A root longer than every other root can be shortened: Kraft's sum of the others leaves room. */
  lemma Shorten(w: seq<int>, p: seq<int>, t: nat, a: seq<int>, n: nat, k: int)
    requires |w| == |p| && Fits(p, t, a, n) && RootAt(p, t, k) && a[k] >= 1
    requires forall j :: RootAt(p, t, j) && j != k ==> a[j] < a[k]
    ensures Fits(p, t, a[k := a[k] - 1], n)
  {
    hide Pow2;
    var h := a[k] - 1;
    Changed(w, p, t, a, n, k, h);
    var v := Shared(a, n);
    var others := v[k := 0];
    OpenUpdate(v, p, t, t, k, 0);
    var d := Pow2(n - h);
    var q := seq(|a|, j requires 0 <= j < |a| => if a[j] <= h && j != k then Pow2(h - a[j]) else 0);
    forall j | 1 <= j <= t && Open(p, t, j) ensures others[j] == q[j] * d {
      assert RootAt(p, t, j);
      if j != k { Pow2Add(h - a[j], n - h); }
    }
    OpenScaled(others, q, p, t, t, d);
    Pow2Add(h, n - h);
    Pow2Step(n - h - 1);
    RoomForOne(OpenSum(q, p, t, t), Pow2(h), Pow2(n - h - 1));
  }

  lemma Pow2Step(n: nat)
    ensures Pow2(n + 1) == 2 * Pow2(n) && Pow2(n) >= 1
  {
  }

  lemma RoomForOne(m: int, c: int, e: int)
    requires e >= 1 && m * (2 * e) + e <= c * (2 * e)
    ensures m * (2 * e) + 2 * e <= c * (2 * e)
  {
    if m >= c {
      ProductNotNegative(m - c, 2 * e);
    } else {
      ProductNotNegative(c - m - 1, 2 * e);
    }
  }

  lemma ProductNotNegative(x: int, y: int)
    requires x >= 0 && y >= 0
    ensures x * y >= 0
  {
  }

  /** Two roots exchange their lengths: the lighter one gets the longer. */
  lemma Exchange(w: seq<int>, p: seq<int>, t: nat, a: seq<int>, n: nat, q: int, x: int) returns (b: seq<int>)
    requires |w| == |p| && Fits(p, t, a, n) && RootAt(p, t, q) && RootAt(p, t, x) && q != x
    requires a[q] <= a[x] && w[q] <= w[x]
    ensures b == a[q := a[x]][x := a[q]] && Fits(p, t, b, n)
    ensures Price(w, p, t, b) <= Price(w, p, t, a) && OpenSum(b, p, t, t) == OpenSum(a, p, t, t)
  {
    hide Pow2, Price, OpenSum;
    Changed(w, p, t, a, n, q, a[x]);
    var c := a[q := a[x]];
    Changed(w, p, t, c, n, x, a[q]);
    b := c[x := a[q]];
    assert (w[x] - w[q]) * (a[x] - a[q]) >= 0;
    assert w[q] * (a[x] - a[q]) + w[x] * (a[q] - a[x]) == -((w[x] - w[q]) * (a[x] - a[q]));
  }

  lemma {:induction false} LengthsPositive(v: seq<int>, p: seq<int>, t: int, u: nat)
    requires u < |v| == |p| && forall k :: 1 <= k <= u ==> v[k] >= 0
    ensures OpenSum(v, p, t, u) >= 0
  {
    if u > 0 {
      LengthsPositive(v, p, t, u - 1);
    }
  }

  /** No root of stage `t` but `l` and `r` is lighter than those two. */
  ghost predicate TwoLightest(w: seq<int>, p: seq<int>, t: nat, l: int, r: int) {
    && |w| == |p| && l != r && RootAt(p, t, l) && RootAt(p, t, r)
    && (forall k :: RootAt(p, t, k) ==> w[k] >= 0)
    && (forall k :: RootAt(p, t, k) && k != l && k != r ==> w[l] <= w[k] && w[r] <= w[k])
  }

  /** At no higher price the two lightest roots can have the same length. */
  lemma {:induction false} Balance(w: seq<int>, p: seq<int>, t: nat, a: seq<int>, n: nat, l: int, r: int)
      returns (b: seq<int>)
    requires TwoLightest(w, p, t, l, r) && Fits(p, t, a, n)
    ensures Fits(p, t, b, n) && b[l] == b[r] && Price(w, p, t, b) <= Price(w, p, t, a)
    decreases OpenSum(a, p, t, t), 2 * n - a[l] - a[r]
  {
    hide Pow2, OpenSum, Price, Shared;
    LengthsPositive(a, p, t, t);
    if a[l] == a[r] {
      b := a;
    } else {
      var (hi, lo) := if a[l] > a[r] then (l, r) else (r, l);
      if x :| RootAt(p, t, x) && x != hi && a[x] >= a[hi] {
        b := Exchange(w, p, t, a, n, lo, x);
        b := Balance(w, p, t, b, n, l, r);
      } else {
        Shorten(w, p, t, a, n, hi);
        Changed(w, p, t, a, n, hi, a[hi] - 1);
        b := a[hi := a[hi] - 1];
        LengthsPositive(b, p, t, t);
        b := Balance(w, p, t, b, n, l, r);
      }
    }
  }

  // ------------------------------------------------------------ from one stage to the next

  /** Node `t` was made of the two lightest roots there were. */
  ghost predicate Greedy(f: Nodes, t: int)
    requires f.Shape() && f.alpha < t <= f.n
  {
    forall k :: 1 <= k < t && Open(f.parent, t - 1, k) && k != f.left[t] && k != f.right[t] ==> Lighter(f, t, k)
  }

  ghost predicate Lighter(f: Nodes, t: int, k: int)
    requires f.Shape() && 0 <= t < NODES && 0 <= k < NODES
  {
    && 0 <= f.left[t] < NODES && 0 <= f.right[t] < NODES
    && f.w[f.left[t]] <= f.w[k] && f.w[f.right[t]] <= f.w[k]
  }

  ghost predicate GreedyTree(f: Nodes) {
    f.Forest() && forall t :: f.alpha < t <= f.n ==> Greedy(f, t)
  }

  /** A sum over the roots when two of them give way to node `t`. */
  lemma JoinedSum(f: Nodes, v: seq<int>, t: int, x: int)
    requires f.Forest() && |v| == NODES && f.alpha < t <= f.n
    ensures var (l, r) := (f.left[t], f.right[t]);
            && 1 <= l < t && 1 <= r < t
            && OpenSum(v[t := x], f.parent, t, t) == OpenSum(v, f.parent, t - 1, t - 1) - v[l] - v[r] + x
    ensures (forall k :: 1 <= k < t ==> v[k] >= 0) ==>
            OpenSum(v, f.parent, t - 1, t - 1) >= v[f.left[t]] + v[f.right[t]]
  {
    StageStep(f, v, t);
    StageStep(f, v[t := x], t);
    hide OpenSum, Nodes.Ok;
    OpenUpdate(v, f.parent, t, t - 1, t, x);
    if forall k :: 1 <= k < t ==> v[k] >= 0 {
      LengthsPositive(v, f.parent, t, t - 1);
    }
  }

  /** Equal lengths of the two nodes joined, less one, serve for the node above them; its weight is what that saves. */
  lemma Merge(f: Nodes, t: int, a: seq<int>, n: nat) returns (b: seq<int>)
    requires f.Forest() && f.alpha < t <= f.n && Fits(f.parent, t - 1, a, n)
    requires 1 <= f.left[t] < t && 1 <= f.right[t] < t && a[f.left[t]] == a[f.right[t]]
    ensures Fits(f.parent, t, b, n)
    ensures Price(Weights(f), f.parent, t - 1, a) == Price(Weights(f), f.parent, t, b) + Weights(f)[t]
  {
    var (l, r, w) := (f.left[t], f.right[t], Weights(f));
    WeightsAdd(f);
    hide Nodes.Forest, Nodes.Ok, Weights, Pow2, OpenSum;
    JoinedSum(f, Shared(a, n), t, 0);
    SomeLength(a[l], n);
    b := a[t := a[l] - 1];
    Pow2Step(n - a[l]);
    JoinedSum(f, Shared(a, n), t, Pow2(n - b[t]));
    JoinedSum(f, Priced(w, a), t, w[t] * b[t]);
    assert Shared(b, n) == Shared(a, n)[t := Pow2(n - b[t])] && Priced(w, b) == Priced(w, a)[t := w[t] * b[t]];
    OneDeeper(w[l], w[r], b[t]);
  }

  /** Two roots cannot both have the whole share. */
  lemma SomeLength(a: int, n: nat)
    requires 0 <= a <= n && Pow2(n - a) + Pow2(n - a) <= Pow2(n)
    ensures a >= 1
  {
  }

  /** The weights of the nodes made after stage `t`. */
  ghost function Inner(f: Nodes, t: int): int
    requires f.Shape() && 0 <= t <= f.n
    decreases f.n - t
  {
    if t == f.n then 0 else Weights(f)[t + 1] + Inner(f, t + 1)
  }

  lemma PricesPositive(f: Nodes, a: seq<int>, n: nat)
    requires f.Forest() && |a| == NODES && Within(a, n)
    ensures |Weights(f)| == NODES && forall k :: 1 <= k <= f.n ==> Priced(Weights(f), a)[k] >= 0
  {
    WeightsAdd(f);
    forall k | 1 <= k <= f.n ensures Priced(Weights(f), a)[k] >= 0 {
      ProductNotNegative(Weights(f)[k], a[k]);
    }
  }

  /** The two children of node `t` were the lightest roots of stage `t - 1`. */
  lemma GreedyPair(f: Nodes, t: int)
    requires GreedyTree(f) && f.alpha < t <= f.n
    ensures TwoLightest(Weights(f), f.parent, t - 1, f.left[t], f.right[t])
  {
    var (p, l, r, w) := (f.parent, f.left[t], f.right[t], Weights(f));
    assert f.Ok(t) && Greedy(f, t);
    WeightsAdd(f);
    forall k | RootAt(p, t - 1, k) && k != l && k != r ensures w[l] <= w[k] && w[r] <= w[k] {
      assert Lighter(f, t, k);
      HeavierWord(f.w[l], f.w[k]);
      HeavierWord(f.w[r], f.w[k]);
    }
  }

  /** No lengths for the roots of stage `t` cost less than the nodes still to be made weigh. */
  lemma {:induction false} AtLeastInner(f: Nodes, t: int, a: seq<int>, n: nat)
    requires GreedyTree(f) && f.alpha <= t <= f.n && Fits(f.parent, t, a, n)
    ensures Price(Weights(f), f.parent, t, a) >= Inner(f, t)
    decreases f.n - t
  {
    if t == f.n {
      PricesPositive(f, a, n);
      LengthsPositive(Priced(Weights(f), a), f.parent, t, t);
    } else {
      GreedyPair(f, t + 1);
      hide Nodes.Forest, Nodes.Ok, Weights, Fits, Price, GreedyTree;
      var b := Balance(Weights(f), f.parent, t, a, n, f.left[t + 1], f.right[t + 1]);
      var c := Merge(f, t + 1, b, n);
      AtLeastInner(f, t + 1, c, n);
    }
  }

  // ------------------------------------------------------------ the tree itself

  ghost function Depths(f: Nodes): (v: seq<int>)
    requires f.Forest()
    ensures |v| == NODES
  {
    seq(NODES, k => if 1 <= k <= f.n then Depth(f, k) else 0)
  }

  /** The depths of the roots of stage `t` in the finished tree cost exactly what the nodes made later weigh. */
  lemma {:induction false} TreeCostsInner(f: Nodes, r: int, t: int)
    requires OneTree(f, r) && f.alpha <= t <= f.n
    ensures Price(Weights(f), f.parent, t, Depths(f)) == Inner(f, t)
    decreases f.n - t
  {
    var v := Priced(Weights(f), Depths(f));
    if t == f.n {
      OnlyRoot(f, r);
      LoneRoot(v, f.parent, t, t, r);
    } else {
      TreeCostsInner(f, r, t + 1);
      StageStep(f, v, t + 1);
      JoinCosts(f, t + 1);
    }
  }

  lemma OnlyRoot(f: Nodes, r: int)
    requires OneTree(f, r)
    ensures 1 <= r <= f.n && Depth(f, r) == 0
    ensures forall k :: 1 <= k <= f.n ==> (Open(f.parent, f.n, k) <==> k == r)
  {
    hide Fib, AddWeights, WeightOf, DepthOf;
    assert f.Ok(r);
    forall k | 1 <= k <= f.n ensures Open(f.parent, f.n, k) <==> k == r {
      assert f.Ok(k);
    }
  }

  /** Two children lie one deeper than their parent and weigh together what it weighs. */
  lemma JoinCosts(f: Nodes, t: int)
    requires f.Forest() && f.alpha < t <= f.n
    ensures var v := Priced(Weights(f), Depths(f));
            1 <= f.left[t] < t && 1 <= f.right[t] < t && v[f.left[t]] + v[f.right[t]] == v[t] + Weights(f)[t]
  {
    hide Fib, AddWeights, WeightOf, DepthOf;
    var (l, r, w) := (f.left[t], f.right[t], Weights(f));
    assert f.Ok(t) && f.Ok(f.left[t]) && f.Ok(f.right[t]);
    WeightsAdd(f);
    DepthStep(f, l);
    DepthStep(f, r);
    OneDeeper(w[l], w[r], Depth(f, t));
  }

  lemma OneDeeper(x: int, y: int, d: int)
    ensures x * (1 + d) + y * (1 + d) == (x + y) * d + (x + y)
  {
  }

  // ------------------------------------------------------------ code words against code lengths

  /** The length of a text whose `i`-th symbol occurs `w[i]` times and is written in `l[i]` bits. */
  ghost function Coded(w: seq<int>, l: seq<int>): int
    requires |w| == |l|
  {
    if w == [] then 0 else Coded(w[..|w| - 1], l[..|l| - 1]) + w[|w| - 1] * l[|l| - 1]
  }

  ghost function Sizes(c: seq<seq<bool>>): (l: seq<int>)
    ensures |l| == |c|
  {
    seq(|c|, i requires 0 <= i < |c| => |c[i]|)
  }

  ghost function Ints(len: seq<byte>): (l: seq<int>)
    ensures |l| == |len|
  {
    seq(|len|, i requires 0 <= i < |len| => len[i] as int)
  }

  /** No prefix code whatever writes the text in fewer bits than these lengths. */
  ghost predicate Shortest(w: seq<int>, len: seq<byte>) {
    |w| == |len|
    && forall c :: |c| == |len| && Unambiguous(c) ==> Coded(w, Ints(len)) <= Coded(w, Sizes(c))
  }

  /** Leaf `i + 1` stands for symbol `i`. */
  lemma {:induction false} LeafPrices(w: seq<int>, a: seq<int>, u: seq<int>, l: seq<int>)
    requires |w| == |a| && |u| == |l| < |w|
    requires forall i :: 0 <= i < |u| ==> w[i + 1] == u[i] && a[i + 1] == l[i]
    ensures LeafSum(Priced(w, a), |u|) == Coded(u, l)
  {
    if u != [] {
      LeafPrices(w, a, u[..|u| - 1], l[..|l| - 1]);
    }
  }

  lemma {:induction false} WordLeaves(c: seq<seq<bool>>, a: seq<int>, n: nat, m: nat)
    requires NoLonger(c, n) && Within(a, n) && m <= |c| < |a| && forall i :: 0 <= i < |c| ==> a[i + 1] == |c[i]|
    ensures LeafSum(Shared(a, n), m) == WordShares(c, [], n, m)
  {
    if m > 0 {
      WordLeaves(c, a, n, m - 1);
    }
  }

  lemma {:induction false} SomeBound(c: seq<seq<bool>>) returns (n: nat)
    ensures NoLonger(c, n)
  {
    if c == [] {
      n := 0;
    } else {
      n := SomeBound(c[1..]);
      n := Max(n, |c[0]|);
      forall i | 0 <= i < |c| ensures |c[i]| <= n {
        assert i > 0 ==> c[i] == c[1..][i - 1];
      }
    }
  }

  /** The lengths of any prefix code, given to the leaves, are lengths that fit. */
  lemma WordsFit(f: Nodes, c: seq<seq<bool>>) returns (a: seq<int>, n: nat)
    requires f.Forest() && |c| == f.alpha && Unambiguous(c)
    ensures Fits(f.parent, f.alpha, a, n) && forall i :: 0 <= i < |c| ==> a[i + 1] == |c[i]|
  {
    n := SomeBound(c);
    a := seq(NODES, k => if 1 <= k <= |c| then |c[k - 1]| else 0);
    WordLeaves(c, a, n, |c|);
    KraftInequality(c, [], n);
    LeavesOpen(f, Shared(a, n), f.alpha);
  }

  /** The lengths read off a tree that always joined the two lightest roots make the shortest prefix code. */
  lemma TreeIsShortest(f: Nodes, r: int, w: seq<int>, len: seq<byte>)
    requires OneTree(f, r) && GreedyTree(f) && |w| == |len| == f.alpha
    requires forall i :: 0 <= i < |w| ==> WeightOf(f.w[i + 1]) == w[i]
    requires forall i :: 0 <= i < |len| ==> LengthIs(f, len, i)
    ensures Shortest(w, len)
  {
    hide Fib, AddWeights;
    TreeCosts(f, r, w, len);
    forall c | |c| == |len| && Unambiguous(c) ensures Coded(w, Ints(len)) <= Coded(w, Sizes(c)) {
      WordsCost(f, w, c);
    }
  }

  lemma TreeCosts(f: Nodes, r: int, w: seq<int>, len: seq<byte>)
    requires OneTree(f, r) && |w| == |len| == f.alpha
    requires forall i :: 0 <= i < |w| ==> WeightOf(f.w[i + 1]) == w[i]
    requires forall i :: 0 <= i < |len| ==> LengthIs(f, len, i)
    ensures Coded(w, Ints(len)) == Inner(f, f.alpha)
  {
    hide Fib, AddWeights, WeightOf;
    forall i | 0 <= i < |len| ensures Depths(f)[i + 1] == Ints(len)[i] { assert LengthIs(f, len, i); }
    LeafPrices(Weights(f), Depths(f), w, Ints(len));
    LeavesOpen(f, Priced(Weights(f), Depths(f)), f.alpha);
    TreeCostsInner(f, r, f.alpha);
  }

  lemma WordsCost(f: Nodes, w: seq<int>, c: seq<seq<bool>>)
    requires GreedyTree(f) && |w| == |c| == f.alpha && Unambiguous(c)
    requires forall i :: 0 <= i < |w| ==> WeightOf(f.w[i + 1]) == w[i]
    ensures Coded(w, Sizes(c)) >= Inner(f, f.alpha)
  {
    hide Fib, AddWeights, WeightOf;
    var a, n := WordsFit(f, c);
    AtLeastInner(f, f.alpha, a, n);
    LeafPrices(Weights(f), a, w, Sizes(c));
    LeavesOpen(f, Priced(Weights(f), a), f.alpha);
  }

  // ------------------------------------------------------------ growing a greedy tree

  lemma JoinsGreedily(f: Nodes, n1: int, n2: int)
    requires GreedyTree(f) && f.n < NODES - 1 && n1 in f.roots && n2 in f.roots && n1 != n2 && f.Join(n1, n2).Forest()
    requires f.w[n1] <= f.w[n2] && forall k :: k in f.roots && k != n1 ==> 0 <= k < NODES && f.w[n2] <= f.w[k]
    ensures GreedyTree(f.Join(n1, n2))
  {
    var g := f.Join(n1, n2);
    forall t | g.alpha < t <= g.n ensures Greedy(g, t) {
      forall k | 1 <= k < t && Open(g.parent, t - 1, k) && k != g.left[t] && k != g.right[t] ensures Lighter(g, t, k) {
        assert f.Ok(k);
        if t <= f.n {
          assert Greedy(f, t) && f.Ok(t);
          assert Open(f.parent, t - 1, k);
          assert Lighter(f, t, k);
        }
      }
    }
  }
}
