/** The forest that `BZ2_hbMakeCodeLengths` grows: weights, heights, depths, and sums over its roots and leaves. */
module HuffmanTree {
  import opened Base
  import opened PrefixCode

  /** Entries of `weight` and `parent`: twice the largest alphabet. */
  const NODES := 2 * BZ_MAX_ALPHA_SIZE

  /** The weight proper, in the upper 24 bits of a weight word. */
  function WeightOf(w: int): int { w / 256 }

  /** The height of the subtree, in the low byte. */
  function DepthOf(w: int): int { w % 256 }

  function AddWeights(a: int, b: int): int {
    (WeightOf(a) + WeightOf(b)) * 256 + (1 + Max(DepthOf(a), DepthOf(b)))
  }

  function Fib(n: nat): nat {
    if n < 2 then n else Fib(n - 1) + Fib(n - 2)
  }

  lemma {:induction false} FibGrows(a: nat, b: nat)
    requires a <= b
    ensures Fib(a) <= Fib(b)
  {
    if a < b {
      FibGrows(a, b - 1);
    }
  }

  lemma FibValues()
    ensures Fib(1) == 1 && Fib(2) == 1 && Fib(3) == 2 && Fib(15) == 610
  {
    assert Fib(2) == 1 && Fib(3) == 2 && Fib(4) == 3 && Fib(5) == 5 && Fib(6) == 8 && Fib(7) == 13;
    assert Fib(8) == 21 && Fib(9) == 34 && Fib(10) == 55 && Fib(11) == 89 && Fib(12) == 144;
    assert Fib(13) == 233 && Fib(14) == 377 && Fib(15) == 610;
  }

  lemma {:induction false} FibDoubles(j: nat)
    ensures Fib(2 + 2 * j) >= Pow2(j)
  {
    if j > 0 {
      FibDoubles(j - 1);
      FibGrows(2 * j, 1 + 2 * j);
    }
  }

  // ------------------------------------------------------------ the forest

  /** The node arrays, with the two children of every inner node. */
  datatype Nodes = Nodes(w: seq<int>, parent: seq<int>, left: seq<int>, right: seq<int>, alpha: int, n: int,
      roots: set<int>, m: int) {

    ghost predicate Shape() {
      && |w| == |parent| == |left| == |right| == NODES && 2 <= alpha <= n < NODES
      && w[0] == 0 && parent[0] == -2 && m >= 1
      && (forall k :: k in roots ==> 1 <= k <= n)
    }

    /**
     * What holds of node `k`: it is a root or its parent knows it; leaves have height 0, an inner node adds up its
     * children; its weight is at least the Fibonacci number its height demands. Every root weighs at least `m`,
     * the weight of the heavier node of the last pair joined.
     */
    ghost predicate Ok(k: int)
      requires Shape() && 1 <= k <= n
    {
      Placed(k) && (k > alpha ==> Summed(k))
    }

    ghost predicate Placed(k: int)
      requires Shape() && 1 <= k <= n
    {
      && w[k] >= 256 && WeightOf(w[k]) >= Fib(DepthOf(w[k]) + 2)
      && (parent[k] == -1 <==> k in roots)
      && (parent[k] != -1 ==>
          alpha < parent[k] <= n && k < parent[k] && (k == left[parent[k]] || k == right[parent[k]]))
      && (k <= alpha ==> DepthOf(w[k]) == 0)
      && (k in roots ==> WeightOf(w[k]) >= m && (DepthOf(w[k]) >= 1 ==> m >= Fib(DepthOf(w[k]) + 1)))
    }

    ghost predicate Summed(k: int)
      requires Shape() && 1 <= k <= n
    {
      && 1 <= left[k] < k && 1 <= right[k] < k && left[k] != right[k]
      && parent[left[k]] == k && parent[right[k]] == k && w[k] == AddWeights(w[left[k]], w[right[k]])
      && DepthOf(w[k]) == 1 + Max(DepthOf(w[left[k]]), DepthOf(w[right[k]]))
      && WeightOf(w[k]) == WeightOf(w[left[k]]) + WeightOf(w[right[k]])
    }

    ghost predicate Forest() {
      Shape() && forall k :: 1 <= k <= n ==> Ok(k)
    }

    /** Joining two roots under a new node. */
    function Join(n1: int, n2: int): Nodes
      requires |w| == |parent| == |left| == |right| == NODES && 0 <= n1 < NODES && 0 <= n2 < NODES && 0 <= n < NODES - 1
    {
      Nodes(w[n + 1 := AddWeights(w[n1], w[n2])], parent[n1 := n + 1][n2 := n + 1][n + 1 := -1],
            left[n + 1 := n1], right[n + 1 := n2], alpha, n + 1, roots - {n1, n2} + {n + 1}, WeightOf(w[n2]))
    }
  }

  /** Joining the two lightest roots keeps the invariant, Fibonacci bound included. */
  lemma JoinKeeps(f: Nodes, n1: int, n2: int)
    requires f.Forest() && f.n < NODES - 1 && n1 in f.roots && n2 in f.roots && n1 != n2
    requires f.w[n1] <= f.w[n2]
    requires forall k :: k in f.roots && k != n1 ==> 0 <= k < NODES && f.w[n2] <= f.w[k]
    requires DepthOf(f.w[n1]) < 255 && DepthOf(f.w[n2]) < 255
    ensures f.Join(n1, n2).Forest()
  {
    var g, t := f.Join(n1, n2), f.n + 1;
    assert f.Ok(n1) && f.Ok(n2);
    JoinedNode(f, n1, n2);
    forall k | 1 <= k <= g.n ensures g.Ok(k) {
      if k < t {
        assert f.Ok(k);
        JoinOthers(f, n1, n2, k);
      }
    }
  }

  lemma JoinedNode(f: Nodes, n1: int, n2: int)
    requires f.Shape() && f.n < NODES - 1 && n1 in f.roots && n2 in f.roots && n1 != n2 && f.Ok(n1) && f.Ok(n2)
    requires f.w[n1] <= f.w[n2] && DepthOf(f.w[n1]) < 255 && DepthOf(f.w[n2]) < 255
    ensures f.Join(n1, n2).Shape() && f.Join(n1, n2).Ok(f.n + 1)
  {
    hide *;
    RootHas(f, n1);
    RootHas(f, n2);
    Packed(f.w[n1], f.w[n2]);
    JoinedShape(f, n1, n2);
    FibJoin(WeightOf(f.w[n1]), WeightOf(f.w[n2]), DepthOf(f.w[n1]), DepthOf(f.w[n2]), f.m);
    JoinedOk(f, n1, n2);
  }

  lemma RootHas(f: Nodes, k: int)
    requires f.Shape() && k in f.roots && f.Ok(k)
    ensures |f.w| == |f.parent| == |f.left| == |f.right| == NODES && 2 <= f.alpha <= f.n < NODES && 1 <= k <= f.n
    ensures f.w[k] >= 256 && WeightOf(f.w[k]) >= f.m >= 1 && WeightOf(f.w[k]) >= 1 && DepthOf(f.w[k]) >= 0
    ensures WeightOf(f.w[k]) >= Fib(DepthOf(f.w[k]) + 2) && (DepthOf(f.w[k]) >= 1 ==> f.m >= Fib(DepthOf(f.w[k]) + 1))
  {
    hide Fib;
  }

  lemma JoinedOk(f: Nodes, n1: int, n2: int)
    requires |f.w| == |f.parent| == |f.left| == |f.right| == NODES && 1 <= n1 <= f.n < NODES - 1 && 1 <= n2 <= f.n
             && n1 != n2
    requires f.Join(n1, n2).Shape() && 2 <= f.alpha <= f.n
    requires var (c, d) := (AddWeights(f.w[n1], f.w[n2]), Max(DepthOf(f.w[n1]), DepthOf(f.w[n2])));
             && d >= 0 && c >= 256 && DepthOf(c) == 1 + d && WeightOf(c) == WeightOf(f.w[n1]) + WeightOf(f.w[n2])
             && WeightOf(f.w[n1]) >= 0 && WeightOf(c) >= Fib(d + 3) && WeightOf(f.w[n2]) >= Fib(d + 2)
    ensures f.Join(n1, n2).Ok(f.n + 1)
  {
    hide Fib, AddWeights, WeightOf, DepthOf, Nodes.Shape;
  }

  lemma JoinedShape(f: Nodes, n1: int, n2: int)
    requires f.Shape() && f.n < NODES - 1 && n1 in f.roots && n2 in f.roots && WeightOf(f.w[n2]) >= 1
    ensures f.Join(n1, n2).Shape()
  {
  }

  /** The heights of two joined trees against their weights. */
  lemma FibJoin(w1: int, w2: int, d1: nat, d2: nat, m: int)
    requires m <= w1 <= w2 && m >= 1 && w1 >= Fib(d1 + 2) && w2 >= Fib(d2 + 2)
    requires (d1 >= 1 ==> m >= Fib(d1 + 1)) && (d2 >= 1 ==> m >= Fib(d2 + 1))
    ensures w1 + w2 >= Fib(1 + Max(d1, d2) + 2) && w2 >= Fib(1 + Max(d1, d2) + 1)
  {
    var h := Max(d1, d2);
    assert Fib(h + 3) == Fib(h + 2) + Fib(h + 1);
    FibValues();
  }

  lemma Packed(a: int, b: int)
    requires a >= 256 && b >= 256 && DepthOf(a) < 255 && DepthOf(b) < 255
    ensures var c := AddWeights(a, b);
            && c >= 256 && WeightOf(c) == WeightOf(a) + WeightOf(b) && DepthOf(c) == 1 + Max(DepthOf(a), DepthOf(b))
    ensures 0 <= DepthOf(a) && 0 <= DepthOf(b) && 0 <= Max(DepthOf(a), DepthOf(b))
    ensures a <= b ==> WeightOf(a) <= WeightOf(b)
  {
  }

  lemma HeavierWord(a: int, b: int)
    ensures a <= b ==> WeightOf(a) <= WeightOf(b)
  {
  }

  lemma JoinOthers(f: Nodes, n1: int, n2: int, k: int)
    requires f.Shape() && f.n < NODES - 1 && n1 in f.roots && n2 in f.roots && n1 != n2 && f.Ok(n1) && f.Ok(n2)
    requires 1 <= k <= f.n && f.Ok(k) && (k in f.roots && k != n1 ==> f.w[n2] <= f.w[k])
    requires f.Join(n1, n2).Shape()
    ensures f.Join(n1, n2).Ok(k)
  {
    HeavierWord(f.w[n2], f.w[k]);
    hide Fib, AddWeights, WeightOf, DepthOf;
    assert WeightOf(f.w[n2]) >= f.m;
    JoinPlaced(f, n1, n2, k);
    if k > f.alpha { JoinSummed(f, n1, n2, k); }
  }

  lemma JoinPlaced(f: Nodes, n1: int, n2: int, k: int)
    requires f.Shape() && f.n < NODES - 1 && n1 in f.roots && n2 in f.roots && n1 != n2 && f.m <= WeightOf(f.w[n2])
    requires 1 <= k <= f.n && f.Placed(k) && (k in f.roots && k != n1 ==> WeightOf(f.w[n2]) <= WeightOf(f.w[k]))
    requires f.Join(n1, n2).Shape()
    ensures f.Join(n1, n2).Placed(k)
  {
    hide Fib, AddWeights, WeightOf, DepthOf;
    JoinAt(f, n1, n2, k);
    JoinAt(f, n1, n2, if f.parent[k] == -1 then f.n + 1 else f.parent[k]);
  }

  lemma JoinSummed(f: Nodes, n1: int, n2: int, k: int)
    requires f.Shape() && f.n < NODES - 1 && n1 in f.roots && n2 in f.roots && f.parent[n1] == -1 && f.parent[n2] == -1
    requires 1 <= k <= f.n && f.Summed(k) && f.Join(n1, n2).Shape()
    ensures f.Join(n1, n2).Summed(k)
  {
    hide Fib, AddWeights, WeightOf, DepthOf;
    JoinAt(f, n1, n2, k);
    JoinAt(f, n1, n2, f.left[k]);
    JoinAt(f, n1, n2, f.right[k]);
  }

  /** The fields of one node after a join. */
  lemma JoinAt(f: Nodes, n1: int, n2: int, i: int)
    requires |f.w| == |f.parent| == |f.left| == |f.right| == NODES && 1 <= n1 <= f.n && 1 <= n2 <= f.n
             && 1 <= i <= f.n + 1 < NODES
    ensures var g := f.Join(n1, n2);
            && g.n == f.n + 1 && g.alpha == f.alpha && g.m == WeightOf(f.w[n2])
            && |g.w| == |g.parent| == |g.left| == |g.right| == NODES
            && (i in g.roots <==> i == f.n + 1 || (i in f.roots && i != n1 && i != n2))
            && g.parent[i] == (if i == f.n + 1 then -1 else if i == n1 || i == n2 then f.n + 1 else f.parent[i])
            && g.left[i] == (if i == f.n + 1 then n1 else f.left[i])
                && g.right[i] == (if i == f.n + 1 then n2 else f.right[i])
            && (i <= f.n ==> g.w[i] == f.w[i])
  {
    hide AddWeights, WeightOf;
  }

  // ------------------------------------------------------------ sums over the roots of each stage

  /** Node `k` was a root when the nodes were 1..t. */
  ghost predicate Open(parent: seq<int>, t: int, k: int)
    requires 0 <= k < |parent|
  {
    parent[k] == -1 || parent[k] > t
  }

  ghost function OpenSum(v: seq<int>, parent: seq<int>, t: int, u: nat): int
    requires u < |v| == |parent|
  {
    if u == 0 then 0 else OpenSum(v, parent, t, u - 1) + if Open(parent, t, u) then v[u] else 0
  }

  /** The children of `t` among the first `u` nodes. */
  ghost function KidSum(v: seq<int>, parent: seq<int>, t: int, u: nat): int
    requires u < |v| == |parent|
  {
    if u == 0 then 0 else KidSum(v, parent, t, u - 1) + if parent[u] == t then v[u] else 0
  }

  lemma {:induction false} OpenOneEarlier(v: seq<int>, parent: seq<int>, t: int, u: nat)
    requires u < |v| == |parent| && t >= 1
    ensures OpenSum(v, parent, t - 1, u) == OpenSum(v, parent, t, u) + KidSum(v, parent, t, u)
  {
    if u > 0 {
      OpenOneEarlier(v, parent, t, u - 1);
    }
  }

  lemma {:induction false} TwoKids(v: seq<int>, parent: seq<int>, t: int, u: nat, l: int, r: int)
    requires u < |v| == |parent| && l != r && l >= 1 && r >= 1
    requires forall k :: 1 <= k <= u ==> (parent[k] == t <==> k == l || k == r)
    ensures KidSum(v, parent, t, u) ==
            (if 1 <= l <= u then v[l] else 0) + (if 1 <= r <= u then v[r] else 0)
  {
    if u > 0 {
      TwoKids(v, parent, t, u - 1, l, r);
    }
  }

  /** A quantity that every inner node adds up from its children. */
  ghost predicate Adds(f: Nodes, v: seq<int>)
    requires f.Shape()
  {
    |v| == NODES && forall t :: f.alpha < t <= f.n ==>
        1 <= f.left[t] < t && 1 <= f.right[t] < t && v[t] == v[f.left[t]] + v[f.right[t]]
  }

  /** Its sum over the roots is the same at every stage, from the leaves to the final roots. */
  lemma {:induction false} SumKept(f: Nodes, v: seq<int>, t: int)
    requires f.Forest() && Adds(f, v) && f.alpha <= t <= f.n
    ensures OpenSum(v, f.parent, t, t) == OpenSum(v, f.parent, f.alpha, f.alpha)
    decreases t
  {
    if t > f.alpha {
      SumKept(f, v, t - 1);
      StageStep(f, v, t);
    }
  }

  /** From stage `t - 1` to stage `t`: two roots become one. */
  lemma StageStep(f: Nodes, v: seq<int>, t: int)
    requires f.Forest() && |v| == NODES && f.alpha < t <= f.n
    ensures var (l, r) := (f.left[t], f.right[t]);
            && 1 <= l < t && 1 <= r < t && l != r && f.parent[l] == t == f.parent[r]
            && OpenSum(v, f.parent, t - 1, t - 1) == OpenSum(v, f.parent, t, t - 1) + v[l] + v[r]
    ensures OpenSum(v, f.parent, t, t) == OpenSum(v, f.parent, t, t - 1) + v[t]
  {
    OpenOneEarlier(v, f.parent, t, t - 1);
    assert f.Ok(t);
    forall k | 1 <= k <= t - 1 ensures f.parent[k] == t <==> k == f.left[t] || k == f.right[t] {
      assert f.Ok(k);
    }
    TwoKids(v, f.parent, t, t - 1, f.left[t], f.right[t]);
  }

  ghost function LeafSum(v: seq<int>, u: nat): int
    requires u < |v|
  {
    if u == 0 then 0 else LeafSum(v, u - 1) + v[u]
  }

  lemma {:induction false} LeavesOpen(f: Nodes, v: seq<int>, u: nat)
    requires f.Forest() && |v| == NODES && u <= f.alpha
    ensures OpenSum(v, f.parent, f.alpha, u) == LeafSum(v, u)
    decreases u
  {
    if u > 0 {
      LeavesOpen(f, v, u - 1);
      assert f.Ok(u);
    }
  }

  lemma {:induction false} LoneRoot(v: seq<int>, parent: seq<int>, t: int, u: nat, r: int)
    requires u < |v| == |parent| && 1 <= r < |v| && forall k :: 1 <= k <= u ==> (Open(parent, t, k) <==> k == r)
    ensures OpenSum(v, parent, t, u) == if r <= u then v[r] else 0
  {
    if u > 0 {
      LoneRoot(v, parent, t, u - 1, r);
    }
  }

  /** The plain weights of all nodes. */
  ghost function Weights(f: Nodes): (v: seq<int>)
    ensures |v| == |f.w|
  {
    seq(|f.w|, k requires 0 <= k < |f.w| => WeightOf(f.w[k]))
  }

  lemma WeightsAdd(f: Nodes)
    requires f.Forest()
    ensures Adds(f, Weights(f))
    ensures forall k :: 1 <= k <= f.n ==> Weights(f)[k] >= 1
  {
    hide Fib, AddWeights;
    forall t | f.alpha < t <= f.n ensures 1 <= f.left[t] < t && 1 <= f.right[t] < t
        && Weights(f)[t] == Weights(f)[f.left[t]] + Weights(f)[f.right[t]] {
      assert f.Ok(t);
    }
    forall k | 1 <= k <= f.n ensures Weights(f)[k] >= 1 {
      assert f.Ok(k);
    }
  }

  /** With a total weight below 2^23, no tree is so high that its height would spill into the weight. */
  lemma HeightFits(f: Nodes, i: int)
    requires f.Forest() && i in f.roots && LeafSum(Weights(f), f.alpha) < 0x80_0000
    ensures DepthOf(f.w[i]) < 255
  {
    var v := Weights(f);
    assert f.Ok(i) && WeightOf(f.w[i]) >= Fib(DepthOf(f.w[i]) + 2) && DepthOf(f.w[i]) >= 0 && v[i] == WeightOf(f.w[i]);
    hide Fib, AddWeights, WeightOf, DepthOf, Weights;
    WeightsAdd(f);
    SumKept(f, v, f.n);
    LeavesOpen(f, v, f.alpha);
    RootInSum(v, f.parent, f.n, f.n, i);
    if DepthOf(f.w[i]) >= 255 {
      FibDoubles(24);
      FibGrows(50, DepthOf(f.w[i]) + 2);
      Pow2Values();
    }
  }

  lemma {:induction false} RootInSum(v: seq<int>, parent: seq<int>, t: int, u: nat, i: int)
    requires u < |v| == |parent| && (forall k :: 1 <= k <= u ==> v[k] >= 0) && 1 <= i < |v| && Open(parent, t, i)
    ensures (if i <= u then v[i] else 0) <= OpenSum(v, parent, t, u)
    ensures OpenSum(v, parent, t, u) >= 0
  {
    if u > 0 {
      RootInSum(v, parent, t, u - 1, i);
    }
  }

  // ------------------------------------------------------------ depths and Kraft's sum

  /** Steps from node `k` up to its root. */
  ghost function Depth(f: Nodes, k: int): (d: nat)
    requires f.Forest() && 1 <= k <= f.n
    ensures d <= f.n - k
    decreases f.n - k
  {
    assert f.Ok(k);
    if f.parent[k] < 0 then 0 else 1 + Depth(f, f.parent[k])
  }

  lemma DepthStep(f: Nodes, k: int)
    requires f.Forest() && 1 <= k <= f.n
    ensures f.parent[k] >= 0 ==> k < f.parent[k] <= f.n && Depth(f, k) == 1 + Depth(f, f.parent[k])
    ensures f.parent[k] < 0 ==> Depth(f, k) == 0
  {
    assert f.Ok(k);
  }

  /** The tree has one root left. */
  ghost predicate OneTree(f: Nodes, r: int) {
    f.Forest() && f.roots == {r}
  }

  lemma {:induction false} DepthBelowHeight(f: Nodes, r: int, k: int)
    requires OneTree(f, r) && 1 <= k <= f.n
    ensures Depth(f, k) + DepthOf(f.w[k]) <= DepthOf(f.w[r])
    ensures Depth(f, k) == 0 ==> k == r
    decreases f.n - k
  {
    hide Fib, AddWeights, WeightOf;
    assert f.Ok(k);
    if f.parent[k] >= 0 {
      assert f.Ok(f.parent[k]);
      DepthBelowHeight(f, r, f.parent[k]);
    }
  }

  /** 2^(NODES - depth): every node has what its two children have together. */
  ghost function Shares(f: Nodes): (v: seq<int>)
    requires f.Forest()
    ensures |v| == NODES
  {
    seq(NODES, k => if 1 <= k <= f.n then Pow2(NODES - Depth(f, k)) else 0)
  }

  lemma SharesAdd(f: Nodes)
    requires f.Forest()
    ensures Adds(f, Shares(f))
  {
    hide Fib, AddWeights, WeightOf, DepthOf;
    forall t | f.alpha < t <= f.n
      ensures 1 <= f.left[t] < t && 1 <= f.right[t] < t && Shares(f)[t] == Shares(f)[f.left[t]] + Shares(f)[f.right[t]]
    {
      assert f.Ok(t) && f.Ok(f.left[t]) && f.Ok(f.right[t]);
      assert Depth(f, f.left[t]) == 1 + Depth(f, t) == Depth(f, f.right[t]);
      assert Pow2(NODES - Depth(f, t)) == 2 * Pow2(NODES - Depth(f, t) - 1);
    }
  }

  lemma LeafShares(f: Nodes, r: int)
    requires OneTree(f, r)
    ensures LeafSum(Shares(f), f.alpha) == Pow2(NODES)
  {
    var v := Shares(f);
    SharesAdd(f);
    hide Fib, AddWeights, WeightOf, DepthOf, Shares;
    SumKept(f, v, f.n);
    LeavesOpen(f, v, f.alpha);
    forall k | 1 <= k <= f.n ensures Open(f.parent, f.n, k) <==> k == r {
      assert f.Ok(k);
    }
    LoneRoot(v, f.parent, f.n, f.n, r);
    RootShare(f, r);
  }

  lemma RootShare(f: Nodes, r: int)
    requires OneTree(f, r)
    ensures 1 <= r <= f.n && Shares(f)[r] == Pow2(NODES)
  {
    assert f.Ok(r);
    assert Depth(f, r) == 0;
  }

  /** The length of symbol `i` is the depth of its leaf. */
  ghost predicate LengthIs(f: Nodes, len: seq<byte>, i: int)
    requires f.Forest() && 0 <= i < |len| <= f.alpha
  {
    len[i] as int == Depth(f, i + 1)
  }

  /** The leaf depths of one tree, as code lengths, have Kraft sum one. */
  lemma {:induction false} KraftOfLeaves(f: Nodes, len: seq<byte>)
    requires f.Forest() && |len| <= f.alpha
    requires forall i :: 0 <= i < |len| ==> LengthIs(f, len, i) && len[i] <= 20
    ensures Kraft(len) * Pow2(NODES - 20) == LeafSum(Shares(f), |len|)
  {
    if len == [] {
      assert Kraft(len) == 0;
    } else {
      hide Fib, AddWeights, WeightOf, DepthOf, Shares, OneTree;
      var t, i := len[..|len| - 1], |len|;
      assert LengthIs(f, len, i - 1);
      forall k | 0 <= k < |t| ensures LengthIs(f, t, k) && t[k] <= 20 {
        assert LengthIs(f, len, k);
      }
      KraftOfLeaves(f, t);
      ShareOfLeaf(f, len, i - 1);
      assert LeafSum(Shares(f), i) == LeafSum(Shares(f), i - 1) + Shares(f)[i];
      hide *;
      KraftGrows(len, LeafSum(Shares(f), i - 1), Shares(f)[i], Pow2(NODES - 20));
    }
  }

  lemma KraftGrows(len: seq<byte>, sum: int, share: int, p: int)
    requires len != [] && forall i :: 0 <= i < |len| ==> len[i] <= 20
    requires Kraft(len[..|len| - 1]) * p == sum && share == Pow2(20 - len[|len| - 1]) * p
    ensures Kraft(len) * p == sum + share
  {
    Split2(Kraft(len[..|len| - 1]), Pow2(20 - len[|len| - 1]), p);
  }

  lemma ShareOfLeaf(f: Nodes, len: seq<byte>, i: int)
    requires f.Forest() && 0 <= i < |len| <= f.alpha && LengthIs(f, len, i) && len[i] <= 20
    ensures Shares(f)[i + 1] == Pow2(20 - len[i]) * Pow2(NODES - 20)
  {
    Pow2Add(20 - len[i], NODES - 20);
  }

  lemma Split2(a: int, b: int, p: int)
    ensures (a + b) * p == a * p + b * p
  {
  }

  lemma KraftIsOne(f: Nodes, r: int, len: seq<byte>)
    requires OneTree(f, r) && |len| == f.alpha
    requires forall i :: 0 <= i < |len| ==> LengthIs(f, len, i) && len[i] <= 20
    ensures Kraft(len) == Pow2(20)
  {
    KraftOfLeaves(f, len);
    LeafShares(f, r);
    Pow2Add(20, NODES - 20);
    hide *;
    LeadingDigit(Kraft(len), 0, Pow2(20), 0, Pow2(NODES - 20));
  }

  /** When no symbol weighs more than two, the tree is at most 12 high. */
  lemma {:induction false} LightLeaves(v: seq<int>, u: nat)
    requires u < |v| && forall k :: 1 <= k <= u ==> v[k] <= 2
    ensures LeafSum(v, u) <= 2 * u
  {
    if u > 0 {
      LightLeaves(v, u - 1);
    }
  }

  lemma LightTreeIsLow(f: Nodes, r: int)
    requires OneTree(f, r) && f.alpha <= BZ_MAX_ALPHA_SIZE
    requires forall k :: 1 <= k <= f.alpha ==> WeightOf(f.w[k]) <= 2
    ensures DepthOf(f.w[r]) <= 12
  {
    var v := Weights(f);
    WeightsAdd(f);
    assert f.Ok(r);
    SumKept(f, v, f.n);
    LeavesOpen(f, v, f.alpha);
    RootInSum(v, f.parent, f.n, f.n, r);
    LightLeaves(v, f.alpha);
    FibValues();
    hide Fib, AddWeights;
    if DepthOf(f.w[r]) >= 13 {
      FibGrows(15, DepthOf(f.w[r]) + 2);
    }
  }
}
