/** `BZ2_hbMakeCodeLengths`: code lengths from a Huffman tree, rebuilt on halved weights while a code is too long. */
module HuffmanLengths {
  import opened Base
  import opened Rearrange
  import opened HuffmanHeap
  import opened PrefixCode
  import opened HuffmanTree
  import opened OptimalCode

  // ------------------------------------------------------------ the algorithm

  /** Leaf weights are whole units of 256; their sum leaves room for every weight in 31 bits. */
  ghost predicate LeafWeights(w: seq<int>, alpha: int) {
    && |w| == NODES && 2 <= alpha <= BZ_MAX_ALPHA_SIZE
    && (forall k :: 1 <= k <= alpha ==> w[k] >= 256 && DepthOf(w[k]) == 0)
    && LeafSum(w, alpha) < 0x80_0000 * 256
  }

  lemma {:induction false} LeafSumSame(v: seq<int>, w: seq<int>, u: nat)
    requires u < |v| == |w| && forall k :: 1 <= k <= u ==> v[k] * 256 == w[k]
    ensures LeafSum(v, u) * 256 == LeafSum(w, u)
  {
    if u > 0 {
      LeafSumSame(v, w, u - 1);
    }
  }

  /** The state before the first join: every leaf is a root. */
  ghost function Start(w: seq<int>, parent: seq<int>, alpha: int): Nodes
    requires 0 <= alpha
  {
    Nodes(w, parent, seq(NODES, _ => 0), seq(NODES, _ => 0), alpha, alpha, UpTo(alpha), 1)
  }

  ghost function UpTo(n: nat): (s: set<int>)
    ensures forall k :: k in s <==> 1 <= k <= n
  {
    if n == 0 then {} else UpTo(n - 1) + {n}
  }

  lemma StartIsForest(w: seq<int>, parent: seq<int>, alpha: int)
    requires LeafWeights(w, alpha) && w[0] == 0 && |parent| == NODES && parent[0] == -2
    requires forall k :: 1 <= k <= alpha ==> parent[k] == -1
    ensures Start(w, parent, alpha).Forest()
  {
    FibValues();
    hide Fib;
    forall k | 1 <= k <= alpha ensures Start(w, parent, alpha).Ok(k) { }
  }

  /** The arrays agree with the forest, and the heap holds its roots. */
  ghost predicate Building(f: Nodes, heap: seq<int>, weight: seq<int>, parent: seq<int>, nHeap: int, leaves: seq<int>) {
    && f.Forest() && f.w == weight && f.parent == parent && Holds(heap, weight, nHeap, f.roots)
    && |heap| == BZ_MAX_ALPHA_SIZE + 2 && f.n == 2 * f.alpha - nHeap && nHeap >= 1
    && LeafWeights(leaves, f.alpha) && forall k :: 1 <= k <= f.alpha ==> weight[k] == leaves[k]
  }

  lemma BuildingFits(f: Nodes, heap: seq<int>, weight: seq<int>, parent: seq<int>, nHeap: int, leaves: seq<int>, i: int)
    requires Building(f, heap, weight, parent, nHeap, leaves) && i in f.roots
    ensures 1 <= i <= f.n < NODES && DepthOf(weight[i]) < 255
  {
    hide Fib, AddWeights, Holds;
    assert f.Ok(i);
    LeafSumSame(Weights(f), leaves, f.alpha);
    HeightFits(f, i);
  }

  lemma BuildingEnds(f: Nodes, heap: seq<int>, weight: seq<int>, parent: seq<int>, leaves: seq<int>) returns (r: int)
    requires Building(f, heap, weight, parent, 1, leaves)
    ensures OneTree(f, r)
  {
    r := heap[1];
    forall k | k in f.roots ensures k == r {
      var i :| 1 <= i <= 1 && heap[i] == k;
    }
  }

  /** Every leaf put on the heap in turn. */
  method LoadLeaves(heap: array<int>, weight: array<int>, parent: array<int>, alphaSize: int) returns (nHeap: int)
    requires heap != weight && heap != parent && weight != parent && 0 <= alphaSize < heap.Length - 1
    requires alphaSize < weight.Length && alphaSize < parent.Length
    requires Holds(heap[..], weight[..], 0, UpTo(0)) && forall k :: 1 <= k <= alphaSize ==> weight[k] > 0
    modifies heap, parent
    ensures nHeap == alphaSize && Holds(heap[..], weight[..], alphaSize, UpTo(alphaSize))
    ensures parent[0] == old(parent[0]) && forall k :: 1 <= k <= alphaSize ==> parent[k] == -1
  {
    hide Holds;
    nHeap := 0;
    for i := 1 to alphaSize + 1
      invariant nHeap == i - 1 && parent[0] == old(parent[0])
      invariant forall k :: 1 <= k < i ==> parent[k] == -1
      invariant Holds(heap[..], weight[..], nHeap, UpTo(nHeap))
    {
      parent[i] := -1;
      AddNode(heap, weight, nHeap, i, UpTo(nHeap));
      nHeap := nHeap + 1;
      assert UpTo(i) == UpTo(i - 1) + {i};
    }
  }

  method FillHeap(heap: array<int>, weight: array<int>, parent: array<int>, alphaSize: int)
      returns (nHeap: int, ghost f: Nodes)
    requires heap != weight && heap != parent && weight != parent
    requires heap.Length == BZ_MAX_ALPHA_SIZE + 2 && weight.Length == parent.Length == NODES
    requires LeafWeights(weight[..], alphaSize)
    modifies heap, weight, parent
    ensures nHeap == alphaSize && f.alpha == alphaSize && GreedyTree(f)
    ensures Building(f, heap[..], weight[..], parent[..], nHeap, old(weight[..]))
  {
    heap[0] := 0;
    weight[0] := 0;
    parent[0] := -2;
    ghost var w := weight[..];
    HoldsNothing(heap[..], w);
    assert forall k :: 1 <= k <= alphaSize ==> w[k] > 0;
    hide Holds, LeafWeights, Building;
    nHeap := LoadLeaves(heap, weight, parent, alphaSize);
    f := Start(w, parent[..], alphaSize);
    StartBuilding(heap[..], w, parent[..], alphaSize, old(weight[..]));
  }

  lemma StartBuilding(heap: seq<int>, w: seq<int>, parent: seq<int>, alpha: int, leaves: seq<int>)
    requires LeafWeights(leaves, alpha) && |w| == NODES && w[0] == 0 && forall k :: 1 <= k < NODES ==> w[k] == leaves[k]
    requires |parent| == NODES && parent[0] == -2 && forall k :: 1 <= k <= alpha ==> parent[k] == -1
    requires |heap| == BZ_MAX_ALPHA_SIZE + 2 && Holds(heap, w, alpha, UpTo(alpha))
    ensures Building(Start(w, parent, alpha), heap, w, parent, alpha, leaves) && GreedyTree(Start(w, parent, alpha))
  {
    hide Holds;
    LeafSumIgnoresZero(leaves, w, alpha);
    StartIsForest(w, parent, alpha);
  }

  lemma HoldsNothing(h: seq<int>, w: seq<int>)
    requires |h| > 0 && |w| > 0 && h[0] == 0 && w[0] == 0
    ensures Holds(h, w, 0, UpTo(0))
  {
  }

  lemma {:induction false} LeafSumIgnoresZero(v: seq<int>, w: seq<int>, u: nat)
    requires u < |v| == |w| && forall k :: 1 <= k < |v| ==> v[k] == w[k]
    ensures LeafSum(v, u) == LeafSum(w, u)
  {
    if u > 0 {
      LeafSumIgnoresZero(v, w, u - 1);
    }
  }

  /** The two lightest roots are joined until one is left. */
  method BuildTree(heap: array<int>, weight: array<int>, parent: array<int>, alphaSize: int)
      returns (ghost f: Nodes, ghost r: int)
    requires heap != weight && heap != parent && weight != parent
    requires heap.Length == BZ_MAX_ALPHA_SIZE + 2 && weight.Length == parent.Length == NODES
    requires LeafWeights(weight[..], alphaSize)
    modifies heap, weight, parent
    ensures OneTree(f, r) && GreedyTree(f) && f.alpha == alphaSize && f.w == weight[..] && f.parent == parent[..]
    ensures forall k :: 1 <= k <= alphaSize ==> weight[k] == old(weight[k])
  {
    ghost var leaves := weight[..];
    var nNodes := alphaSize;
    var nHeap: int;
    nHeap, f := FillHeap(heap, weight, parent, alphaSize);
    hide Building, GreedyTree;
    while nHeap > 1
      invariant nHeap >= 1 && nNodes == 2 * alphaSize - nHeap && f.alpha == alphaSize && GreedyTree(f)
      invariant Building(f, heap[..], weight[..], parent[..], nHeap, leaves)
    {
      nNodes, f := JoinLightest(heap, weight, parent, nHeap, nNodes, f, leaves);
      nHeap := nHeap - 1;
    }
    r := BuildingEnds(f, heap[..], weight[..], parent[..], leaves);
    BuildingLeaves(f, heap[..], weight[..], parent[..], nHeap, leaves);
  }

  lemma BuildingLeaves(f: Nodes, heap: seq<int>, weight: seq<int>, parent: seq<int>, nHeap: int, leaves: seq<int>)
    requires Building(f, heap, weight, parent, nHeap, leaves)
    ensures f.w == weight && f.parent == parent && |leaves| == |weight| == |parent| == NODES
            && f.n == 2 * f.alpha - nHeap < NODES
    ensures |f.left| == |f.right| == NODES && 2 <= f.alpha <= f.n
    ensures |heap| == BZ_MAX_ALPHA_SIZE + 2 && Holds(heap, weight, nHeap, f.roots) && f.alpha <= BZ_MAX_ALPHA_SIZE
    ensures forall k :: 1 <= k <= f.alpha ==> weight[k] == leaves[k]
  {
    assert f.Shape();
  }

  method TakeTwo(heap: array<int>, weight: array<int>, nHeap: int, ghost nodes: set<int>) returns (n1: int, n2: int)
    requires heap != weight && nHeap > 1 && Holds(heap[..], weight[..], nHeap, nodes)
    modifies heap
    ensures n1 in nodes && n2 in nodes - {n1} && 1 <= n1 < weight.Length && 1 <= n2 < weight.Length
    ensures Holds(heap[..], weight[..], nHeap - 2, nodes - {n1, n2})
    ensures forall k :: k in nodes ==> 0 <= k < weight.Length && weight[n1] <= weight[k]
    ensures forall k :: k in nodes - {n1} ==> 0 <= k < weight.Length && weight[n2] <= weight[k]
  {
    hide Holds;
    n1 := TakeLightest(heap, weight, nHeap, nodes);
    n2 := TakeLightest(heap, weight, nHeap - 1, nodes - {n1});
    assert nodes - {n1} - {n2} == nodes - {n1, n2};
  }

  /** One turn of the joining loop. */
  method JoinLightest(heap: array<int>, weight: array<int>, parent: array<int>, nHeap0: int, nNodes0: int,
                      ghost f0: Nodes, ghost leaves: seq<int>)
    returns (nNodes: int, ghost f: Nodes)
    requires heap != weight && heap != parent && weight != parent
    requires nHeap0 > 1 && nNodes0 == f0.n && Building(f0, heap[..], weight[..], parent[..], nHeap0, leaves)
    requires GreedyTree(f0)
    modifies heap, weight, parent
    ensures nNodes == nNodes0 + 1 && f.alpha == f0.alpha && GreedyTree(f)
    ensures Building(f, heap[..], weight[..], parent[..], nHeap0 - 1, leaves)
  {
    hide *;
    BuildingLeaves(f0, heap[..], weight[..], parent[..], nHeap0, leaves);
    ghost var heap0 := heap[..];
    var n1, n2 := TakeTwo(heap, weight, nHeap0, f0.roots);
    nNodes, f := JoinNodes(heap, weight, parent, nHeap0 - 2, nNodes0, n1, n2, f0, heap0, leaves);
  }

  /** A new node above two roots just taken off the heap, and onto the heap. */
  method JoinNodes(heap: array<int>, weight: array<int>, parent: array<int>, nHeap: int, nNodes0: int, n1: int, n2: int,
                   ghost f0: Nodes, ghost heap0: seq<int>, ghost leaves: seq<int>)
    returns (nNodes: int, ghost f: Nodes)
    requires heap != weight && heap != parent && weight != parent
    requires nHeap >= 0 && nNodes0 == f0.n && Building(f0, heap0, weight[..], parent[..], nHeap + 2, leaves)
    requires heap.Length == BZ_MAX_ALPHA_SIZE + 2 && weight.Length == parent.Length == NODES
    requires n1 in f0.roots && n2 in f0.roots - {n1} && 1 <= n1 < NODES && 1 <= n2 < NODES
    requires Holds(heap[..], weight[..], nHeap, f0.roots - {n1, n2})
    requires forall k :: k in f0.roots ==> 0 <= k < NODES && weight[n1] <= weight[k]
    requires forall k :: k in f0.roots - {n1} ==> 0 <= k < NODES && weight[n2] <= weight[k]
    requires GreedyTree(f0)
    modifies heap, weight, parent
    ensures nNodes == nNodes0 + 1 && f.alpha == f0.alpha && GreedyTree(f)
    ensures Building(f, heap[..], weight[..], parent[..], nHeap + 1, leaves)
  {
    hide *;
    BuildingLeaves(f0, heap0, weight[..], parent[..], nHeap + 2, leaves);
    BuildingFits(f0, heap0, weight[..], parent[..], nHeap + 2, leaves, n1);
    BuildingFits(f0, heap0, weight[..], parent[..], nHeap + 2, leaves, n2);
    BuildingJoins(f0, heap0, weight[..], parent[..], nHeap + 2, leaves, n1, n2);
    nNodes := nNodes0 + 1;
    ghost var (w, p) := (weight[..], parent[..]);
    parent[n1], parent[n2] := nNodes, nNodes;
    weight[nNodes] := AddWeights(weight[n1], weight[n2]);
    parent[nNodes] := -1;
    f := f0.Join(n1, n2);
    assert weight[..] == w[nNodes := weight[nNodes]] && parent[..] == p[n1 := nNodes][n2 := nNodes][nNodes := -1];
    HoldsIgnores(heap[..], w, weight[..], nHeap, f0.roots - {n1, n2}, nNodes);
    AddNode(heap, weight, nHeap, nNodes, f0.roots - {n1, n2});
    BuildingIs(f0, f, heap0, nHeap + 2, heap[..], leaves, n1, n2);
  }

  lemma BuildingJoins(f: Nodes, heap: seq<int>, weight: seq<int>, parent: seq<int>, nHeap: int, leaves: seq<int>,
      n1: int, n2: int)
    requires Building(f, heap, weight, parent, nHeap, leaves) && nHeap > 1
    requires n1 in f.roots && n2 in f.roots - {n1} && DepthOf(weight[n1]) < 255 && DepthOf(weight[n2]) < 255
    requires forall k :: k in f.roots ==> 0 <= k < NODES && weight[n1] <= weight[k]
    requires forall k :: k in f.roots - {n1} ==> 0 <= k < NODES && weight[n2] <= weight[k]
    requires GreedyTree(f)
    ensures f.n < NODES - 1 && f.Join(n1, n2).Forest() && f.n + 1 !in f.roots && GreedyTree(f.Join(n1, n2))
    ensures weight[f.n + 1 := AddWeights(weight[n1], weight[n2])] == f.Join(n1, n2).w
            && AddWeights(weight[n1], weight[n2]) > 0
    ensures parent[n1 := f.n + 1][n2 := f.n + 1][f.n + 1 := -1] == f.Join(n1, n2).parent
            && f.Join(n1, n2).alpha == f.alpha
    ensures f.Join(n1, n2).roots == f.roots - {n1, n2} + {f.n + 1} && weight[0] == 0
  {
    hide Holds, Fib, GreedyTree;
    assert f.Ok(n1) && f.Ok(n2);
    JoinKeeps(f, n1, n2);
    JoinsGreedily(f, n1, n2);
  }

  lemma HoldsIgnores(h: seq<int>, w: seq<int>, w': seq<int>, n: int, nodes: set<int>, t: int)
    requires Holds(h, w, n, nodes) && |w'| == |w| && t != 0 && t !in nodes
    requires forall k :: 0 <= k < |w| && k != t ==> w'[k] == w[k]
    ensures Holds(h, w', n, nodes)
  {
  }

  lemma BuildingIs(f0: Nodes, f: Nodes, heap0: seq<int>, nHeap0: int, heap: seq<int>, leaves: seq<int>, n1: int,
      n2: int)
    requires Building(f0, heap0, f0.w, f0.parent, nHeap0, leaves) && nHeap0 > 1 && f0.n < NODES - 1
    requires n1 in f0.roots && n2 in f0.roots && f == f0.Join(n1, n2) && f.Forest()
    requires |heap| == BZ_MAX_ALPHA_SIZE + 2 && Holds(heap, f.w, nHeap0 - 1, f.roots)
    ensures Building(f, heap, f.w, f.parent, nHeap0 - 1, leaves)
  {
    hide Holds, Fib;
  }

  /** Code lengths read off the tree: steps from each leaf up to the root. */
  method ReadLengths(len: array<byte>, parent: array<int>, alphaSize: int, maxLen: int, ghost f: Nodes, ghost r: int)
      returns (tooLong: bool)
    requires OneTree(f, r) && f.parent == parent[..] && f.alpha == alphaSize <= len.Length && len as object != parent
    modifies len
    ensures tooLong <==> exists i :: 1 <= i <= alphaSize && Depth(f, i) > maxLen
    ensures !tooLong && maxLen <= 20 ==>
              forall i :: 0 <= i < alphaSize ==> LengthIs(f, len[..alphaSize], i) && 1 <= len[i] as int <= maxLen
    ensures len[alphaSize..] == old(len[alphaSize..])
  {
    tooLong := false;
    OneTreeSizes(f, r);
    hide Depth, Fib, AddWeights, OneTree, Nodes.Forest, Nodes.Ok;
    for i := 1 to alphaSize + 1
      invariant tooLong <==> exists k :: 1 <= k < i && Depth(f, k) > maxLen
      invariant !tooLong && maxLen <= 20 ==> forall k ::
                0 <= k < i - 1 ==> len[k] as int == Depth(f, k + 1) && 1 <= len[k] as int <= maxLen
      invariant len[alphaSize..] == old(len[alphaSize..])
    {
      var j, k := 0, i;
      DepthStep(f, k);
      while parent[k] >= 0
        modifies {}
        invariant 1 <= k <= f.n && j + Depth(f, k) == Depth(f, i)
        invariant parent[k] < 0 ==> Depth(f, k) == 0
        decreases f.n - k
      {
        DepthStep(f, k);
        k := parent[k];
        j := j + 1;
        DepthStep(f, k);
      }
      LeafNotRoot(f, r, i);
      len[i - 1] := j % 256;
      if j > maxLen { tooLong := true; }
    }
  }

  /** With two symbols or more no leaf is the root. */
  lemma LeafNotRoot(f: Nodes, r: int, i: int)
    requires OneTree(f, r) && 1 <= i <= f.alpha
    ensures Depth(f, i) >= 1
  {
    hide Fib, AddWeights;
    if Depth(f, i) == 0 {
      DepthBelowHeight(f, r, i);
      assert f.Ok(i);
      var other := if i == 1 then 2 else 1;
      assert f.Ok(other);
      DepthBelowHeight(f, r, other);
    }
  }

  /** Halving: every unit count j becomes 1 + j / 2. */
  method Rescale(weight: array<int>, alphaSize: int)
    requires weight.Length == NODES && LeafWeights(weight[..], alphaSize)
    modifies weight
    ensures LeafWeights(weight[..], alphaSize)
    ensures forall k :: 1 <= k <= alphaSize ==> weight[k] == (1 + old(WeightOf(weight[k])) / 2) * 256
  {
    ghost var w := weight[..];
    for i := 1 to alphaSize + 1
      invariant forall k :: 1 <= k < i ==> weight[k] == (1 + WeightOf(w[k]) / 2) * 256
      invariant forall k :: i <= k < weight.Length ==> weight[k] == w[k]
    {
      var j := weight[i] / 256;
      j := 1 + j / 2;
      weight[i] := j * 256;
    }
    LeafSumFalls(w, weight[..], alphaSize);
  }

  /** Rescaling lowers the total weight, unless every symbol already weighs at most two. */
  lemma {:induction false} LeafSumFalls(v: seq<int>, w: seq<int>, u: nat)
    requires u < |v| == |w|
    requires forall k :: 1 <= k <= u ==> v[k] >= 256 && v[k] % 256 == 0 && w[k] == (1 + v[k] / 256 / 2) * 256
    ensures LeafSum(w, u) <= LeafSum(v, u)
    ensures (exists k :: 1 <= k <= u && v[k] / 256 > 2) ==> LeafSum(w, u) < LeafSum(v, u)
  {
    if u > 0 {
      LeafSumFalls(v, w, u - 1);
    }
  }

  lemma {:induction false} LeafSumPositive(v: seq<int>, u: nat)
    requires u < |v| && forall k :: 1 <= k <= u ==> v[k] >= 0
    ensures LeafSum(v, u) >= 0
  {
    if u > 0 {
      LeafSumPositive(v, u - 1);
    }
  }

  /** A code can be too long only while some symbol weighs more than two. */
  lemma TooLongMeansHeavy(f: Nodes, r: int, i: int, maxLen: int)
    requires OneTree(f, r) && f.alpha <= BZ_MAX_ALPHA_SIZE && 1 <= i <= f.alpha && maxLen >= 12 && Depth(f, i) > maxLen
    ensures exists k :: 1 <= k <= f.alpha && WeightOf(f.w[k]) > 2
  {
    if forall k :: 1 <= k <= f.alpha ==> WeightOf(f.w[k]) <= 2 {
      LightTreeIsLow(f, r);
      DepthBelowHeight(f, r, i);
    }
  }

  /** A code can be too long only when the weights add up to a Fibonacci number. */
  lemma TooLongMeansMuch(f: Nodes, r: int, i: int, maxLen: nat)
    requires OneTree(f, r) && 1 <= i <= f.alpha && Depth(f, i) > maxLen
    requires forall k :: 1 <= k <= f.alpha ==> DepthOf(f.w[k]) == 0
    ensures LeafSum(f.w, f.alpha) >= Fib(maxLen + 3) * 256
  {
    var v := Weights(f);
    DepthBelowHeight(f, r, i);
    FibGrows(maxLen + 3, DepthOf(f.w[r]) + 2);
    assert f.Ok(r);
    hide Fib, AddWeights;
    WeightsAdd(f);
    SumKept(f, v, f.n);
    LeavesOpen(f, v, f.alpha);
    RootInSum(v, f.parent, f.n, f.n, r);
    LeafSumSame(v, f.w, f.alpha);
  }

  ghost function FreqSum(freq: seq<int>, n: nat): int
    requires n <= |freq|
  {
    if n == 0 then 0 else FreqSum(freq, n - 1) + Max(freq[n - 1], 1)
  }

  lemma {:induction false} FreqWeights(freq: seq<int>, w: seq<int>, n: nat)
    requires n <= |freq| && n < |w| && forall k :: 1 <= k <= n ==> w[k] == Max(freq[k - 1], 1) * 256
    ensures LeafSum(w, n) == FreqSum(freq, n) * 256
  {
    if n > 0 {
      FreqWeights(freq, w, n - 1);
    }
  }

  /** A symbol that does not occur counts once. */
  method LoadWeights(weight: array<int>, freq: array<int>, alphaSize: int)
    requires weight != freq && weight.Length == NODES && 2 <= alphaSize <= BZ_MAX_ALPHA_SIZE && alphaSize <= freq.Length
    requires (forall i :: 0 <= i < alphaSize ==> freq[i] >= 0) && FreqSum(freq[..], alphaSize) < 0x80_0000
    modifies weight
    ensures LeafWeights(weight[..], alphaSize) && LeafSum(weight[..], alphaSize) == FreqSum(freq[..], alphaSize) * 256
    ensures Plain(weight[..], alphaSize) == Halved(freq[..alphaSize], 0)
  {
    for i := 0 to alphaSize
      invariant forall k :: 1 <= k <= i ==> weight[k] == Max(freq[k - 1], 1) * 256
    {
      weight[i + 1] := (if freq[i] == 0 then 1 else freq[i]) * 256;
    }
    FreqWeights(freq[..], weight[..], alphaSize);
  }

  /** What the symbols weigh after `n` halvings: at least one each, and every halving adds one. */
  ghost function Halved(freq: seq<int>, n: nat): (w: seq<int>)
    ensures |w| == |freq|
  {
    if n == 0 then
      seq(|freq|, i requires 0 <= i < |freq| => Max(freq[i], 1))
    else
      var w := Halved(freq, n - 1);
      seq(|freq|, i requires 0 <= i < |freq| => 1 + w[i] / 2)
  }

  /**
   * `BZ2_hbMakeCodeLengths`: for 2 to 258 symbols it terminates, every length is between 1 and maxLen, and Kraft's
   * sum is exactly one, so the lengths belong to a complete prefix code. For the frequencies after some number of
   * halvings no prefix code is shorter; nothing is halved while they add up to less than a Fibonacci number. The
   * frequencies must leave room for the eight bits of height in a 32-bit word.
   */
  method MakeCodeLengths(len: array<byte>, freq: array<int>, alphaSize: int, maxLen: int) returns (ghost halvings: nat)
    requires 2 <= alphaSize <= BZ_MAX_ALPHA_SIZE && alphaSize <= len.Length && alphaSize <= freq.Length
    requires 12 <= maxLen <= 20 && (forall i :: 0 <= i < alphaSize ==> freq[i] >= 0)
             && FreqSum(freq[..], alphaSize) < 0x80_0000
    modifies len
    ensures forall i :: 0 <= i < alphaSize ==> 1 <= len[i] as int <= maxLen
    ensures Lengths(len[..alphaSize]) && Kraft(len[..alphaSize]) == Pow2(20)
    ensures Shortest(Halved(freq[..alphaSize], halvings), len[..alphaSize])
    ensures halvings > 0 ==> FreqSum(freq[..], alphaSize) >= Fib(maxLen + 3)
    ensures len[alphaSize..] == old(len[alphaSize..])
  {
    hide Kraft, LeafSum, FreqSum, Fib, Shortest, Halved;
    var heap, weight, parent := new int[BZ_MAX_ALPHA_SIZE + 2], new int[NODES], new int[NODES];
    LoadWeights(weight, freq, alphaSize);
    halvings := 0;
    while true
      modifies len, heap, weight, parent
      invariant LeafWeights(weight[..], alphaSize) && len[alphaSize..] == old(len[alphaSize..])
      invariant Plain(weight[..], alphaSize) == Halved(freq[..alphaSize], halvings)
      invariant halvings == 0 ==> LeafSum(weight[..], alphaSize) == FreqSum(freq[..], alphaSize) * 256
      invariant halvings > 0 ==> FreqSum(freq[..], alphaSize) >= Fib(maxLen + 3)
      decreases LeafSum(weight[..], alphaSize)
    {
      LeafSumPositive(weight[..], alphaSize);
      ghost var w0 := weight[..];
      var tooLong := TryLengths(len, heap, weight, parent, alphaSize, maxLen);
      SamePlain(w0, weight[..], alphaSize);
      if !tooLong { break; }
      ghost var w1 := weight[..];
      Rescale(weight, alphaSize);
      LeafSumFalls(w1, weight[..], alphaSize);
      PlainHalves(w1, weight[..], freq[..alphaSize], halvings);
      halvings := halvings + 1;
    }
  }

  lemma SamePlain(v: seq<int>, w: seq<int>, alpha: nat)
    requires alpha < |v| == |w| && forall k :: 1 <= k <= alpha ==> v[k] == w[k]
    ensures Plain(v, alpha) == Plain(w, alpha)
  {
  }

  lemma PlainHalves(v: seq<int>, w: seq<int>, freq: seq<int>, n: nat)
    requires |freq| < |v| == |w| && Plain(v, |freq|) == Halved(freq, n)
    requires forall k :: 1 <= k <= |freq| ==> w[k] == (1 + WeightOf(v[k]) / 2) * 256
    ensures Plain(w, |freq|) == Halved(freq, n + 1)
  {
    forall i | 0 <= i < |freq| ensures Plain(w, |freq|)[i] == Halved(freq, n + 1)[i] {
      assert Plain(v, |freq|)[i] == Halved(freq, n)[i];
    }
  }

  lemma OneTreeSizes(f: Nodes, r: int)
    requires OneTree(f, r)
    ensures f.Forest() && 2 <= f.alpha <= f.n < NODES && |f.w| == |f.parent| == NODES
  {
  }

  /** One round: a tree on the weights as they stand, and the lengths read off it. */
  method TryLengths(len: array<byte>, heap: array<int>, weight: array<int>, parent: array<int>, alphaSize: int,
      maxLen: int)
    returns (tooLong: bool)
    requires heap != weight && heap != parent && weight != parent && len as object != heap && len as object != weight
             && len as object != parent
    requires heap.Length == BZ_MAX_ALPHA_SIZE + 2 && weight.Length == parent.Length == NODES
    requires 2 <= alphaSize <= BZ_MAX_ALPHA_SIZE && alphaSize <= len.Length && 12 <= maxLen <= 20
             && LeafWeights(weight[..], alphaSize)
    modifies len, heap, weight, parent
    ensures LeafWeights(weight[..], alphaSize) && LeafSum(weight[..], alphaSize) == old(LeafSum(weight[..], alphaSize))
    ensures len[alphaSize..] == old(len[alphaSize..])
    ensures tooLong ==> exists k :: 1 <= k <= alphaSize && WeightOf(weight[k]) > 2
    ensures tooLong ==> LeafSum(weight[..], alphaSize) >= Fib(maxLen + 3) * 256
    ensures !tooLong ==> Lengths(len[..alphaSize]) && Kraft(len[..alphaSize]) == Pow2(20)
    ensures !tooLong ==> forall i :: 0 <= i < alphaSize ==> 1 <= len[i] as int <= maxLen
    ensures !tooLong ==> Shortest(Plain(weight[..], alphaSize), len[..alphaSize])
    ensures forall k :: 1 <= k <= alphaSize ==> weight[k] == old(weight[k])
  {
    hide Fib, AddWeights, LengthIs, OneTree, Depth, Kraft, LeafSum, Shortest, GreedyTree;
    ghost var w := weight[..];
    var f, r := BuildTree(heap, weight, parent, alphaSize);
    OneTreeSizes(f, r);
    LeafSumAgrees(w, weight[..], alphaSize);
    tooLong := ReadLengths(len, parent, alphaSize, maxLen, f, r);
    if tooLong {
      ghost var i :| 1 <= i <= alphaSize && Depth(f, i) > maxLen;
      TooLongMeansHeavy(f, r, i, maxLen);
      TooLongMeansMuch(f, r, i, maxLen);
    } else {
      KraftIsOne(f, r, len[..alphaSize]);
      TreeIsShortest(f, r, Plain(weight[..], alphaSize), len[..alphaSize]);
    }
  }

  /** The weights of the symbols without the heights. */
  ghost function Plain(w: seq<int>, alpha: nat): (u: seq<int>)
    requires alpha < |w|
    ensures |u| == alpha && forall i :: 0 <= i < alpha ==> u[i] == WeightOf(w[i + 1])
  {
    seq(alpha, i requires 0 <= i < alpha => WeightOf(w[i + 1]))
  }

  lemma LeafSumAgrees(v: seq<int>, w: seq<int>, u: nat)
    requires u < |v| == |w| && forall k :: 1 <= k <= u ==> v[k] == w[k]
    ensures LeafSum(v, u) == LeafSum(w, u)
  {
    if u > 0 {
      LeafSumAgrees(v, w, u - 1);
    }
  }
}
