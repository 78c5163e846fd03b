/** The heap of `BZ2_hbMakeCodeLengths`: an array from 1, with a weightless sentinel at 0. */
module HuffmanHeap {
  import opened Base
  import opened Rearrange

  /** Entries 0..n name nodes; only the sentinel weighs nothing. */
  ghost predicate Entries(h: seq<int>, w: seq<int>, n: int) {
    && 0 <= n < |h| && |w| > 0 && h[0] == 0 && w[0] == 0
    && forall i :: 1 <= i <= n ==> 1 <= h[i] < |w| && w[h[i]] > 0
  }

  /** Every entry weighs at least as much as its parent, except that nothing is known between `hole` and its parent. */
  ghost predicate OrderUp(h: seq<int>, w: seq<int>, n: int, hole: int)
    requires Entries(h, w, n)
  {
    && (forall i :: 2 <= i <= n && i != hole ==> w[h[i / 2]] <= w[h[i]])
    && (forall i :: 2 <= i <= n && i / 2 == hole >= 2 ==> w[h[hole / 2]] <= w[h[i]])
  }

  /** The same, with nothing known between `hole` and its children. */
  ghost predicate OrderDown(h: seq<int>, w: seq<int>, n: int, hole: int)
    requires Entries(h, w, n)
  {
    && (forall i :: 2 <= i <= n && i / 2 != hole ==> w[h[i / 2]] <= w[h[i]])
    && (forall i :: 2 <= i <= n && i / 2 == hole >= 2 ==> w[h[hole / 2]] <= w[h[i]])
  }

  ghost predicate HeapOrder(h: seq<int>, w: seq<int>, n: int)
    requires Entries(h, w, n)
  {
    forall i :: 2 <= i <= n ==> w[h[i / 2]] <= w[h[i]]
  }

  /** The first entry is the lightest. */
  lemma {:induction false} RootIsLightest(h: seq<int>, w: seq<int>, n: int, i: int)
    requires Entries(h, w, n) && HeapOrder(h, w, n) && 1 <= i <= n
    ensures w[h[1]] <= w[h[i]]
    decreases i
  {
    if i > 1 {
      RootIsLightest(h, w, n, i / 2);
    }
  }

  lemma Untouched(f: seq<int>, g: seq<int>, lo: int, hi: int, k: int)
    requires Rearranged(f, g, lo, hi) && 0 <= k < |f| && !(lo <= k <= hi)
    ensures g[k] == f[k]
  {
  }

  lemma UpStep(h: seq<int>, w: seq<int>, n: int, z: int)
    requires Entries(h, w, n) && 1 <= z <= n && OrderUp(h, w, n, z) && w[h[z]] < w[h[z / 2]]
    ensures z >= 2 && Entries(Swapped(h, z, z / 2), w, n) && OrderUp(Swapped(h, z, z / 2), w, n, z / 2)
  {
  }

  lemma DownStep(h: seq<int>, w: seq<int>, n: int, z: int, y: int)
    requires Entries(h, w, n) && 1 <= z && OrderDown(h, w, n, z) && y / 2 == z && y <= n && w[h[y]] <= w[h[z]]
    requires forall i :: 2 <= i <= n && i / 2 == z ==> w[h[y]] <= w[h[i]]
    ensures Entries(Swapped(h, z, y), w, n) && OrderDown(Swapped(h, z, y), w, n, y)
  {
  }

  /** `UPHEAP(nHeap)`. */
  method UpHeap(heap: array<int>, weight: array<int>, nHeap: int)
    requires heap != weight && Entries(heap[..], weight[..], nHeap) && nHeap >= 1
    requires OrderUp(heap[..], weight[..], nHeap, nHeap)
    modifies heap
    ensures Rearranged(old(heap[..]), heap[..], 1, nHeap)
    ensures Entries(heap[..], weight[..], nHeap) && HeapOrder(heap[..], weight[..], nHeap)
  {
    ghost var f, w := heap[..], weight[..];
    ghost var v := f;
    var zz := nHeap;
    var tmp := heap[zz];
    assert Rearranged(f, v, 1, nHeap);
    hide Rearranged, OrderUp;
    while weight[tmp] < weight[heap[zz / 2]]
      invariant 1 <= zz <= nHeap && |v| == heap.Length && v[zz] == tmp
      invariant forall k :: 0 <= k < |v| && k != zz ==> heap[k] == v[k]
      invariant Rearranged(f, v, 1, nHeap) && Entries(v, w, nHeap) && OrderUp(v, w, nHeap, zz)
      decreases zz
    {
      UpStep(v, w, nHeap, zz);
      SwapRearranges(v, zz, zz / 2, 1, nHeap);
      RearrangedTwice(f, v, Swapped(v, zz, zz / 2), 1, nHeap);
      heap[zz] := heap[zz / 2];
      v := Swapped(v, zz, zz / 2);
      zz := zz / 2;
    }
    heap[zz] := tmp;
    assert heap[..] == v;
    UpDone(v, w, nHeap, zz);
  }

  lemma UpDone(h: seq<int>, w: seq<int>, n: int, z: int)
    requires Entries(h, w, n) && 1 <= z <= n && OrderUp(h, w, n, z) && w[h[z / 2]] <= w[h[z]]
    ensures HeapOrder(h, w, n)
  {
  }

  method LighterChild(heap: array<int>, weight: array<int>, nHeap: int, zz: int, ghost v: seq<int>) returns (yy: int)
    requires |v| == heap.Length && Entries(v, weight[..], nHeap) && 1 <= zz && zz * 2 <= nHeap
    requires forall k :: 0 <= k < |v| && k != zz ==> heap[k] == v[k]
    ensures yy / 2 == zz && zz < yy <= nHeap && 0 <= heap[yy] < weight.Length && heap[yy] == v[yy]
    ensures forall i :: 2 <= i <= nHeap && i / 2 == zz ==> weight[v[yy]] <= weight[v[i]]
  {
    yy := zz * 2;
    if yy < nHeap && weight[heap[yy + 1]] < weight[heap[yy]] {
      yy := yy + 1;
    }
  }

  /** `DOWNHEAP(1)`. */
  method DownHeap(heap: array<int>, weight: array<int>, nHeap: int)
    requires heap != weight && heap.Length >= 2 && Entries(heap[..], weight[..], nHeap)
    requires nHeap >= 1 ==> OrderDown(heap[..], weight[..], nHeap, 1)
    modifies heap
    ensures Rearranged(old(heap[..]), heap[..], 1, nHeap)
    ensures Entries(heap[..], weight[..], nHeap) && HeapOrder(heap[..], weight[..], nHeap)
  {
    ghost var f, w := heap[..], weight[..];
    ghost var v := f;
    assert Rearranged(f, v, 1, nHeap);
    if nHeap == 0 { return; }
    var zz := 1;
    var tmp := heap[zz];
    hide Rearranged, OrderDown, HeapOrder;
    while true
      invariant 1 <= zz <= nHeap && |v| == heap.Length && v[zz] == tmp
      invariant forall k :: 0 <= k < |v| && k != zz ==> heap[k] == v[k]
      invariant Rearranged(f, v, 1, nHeap) && Entries(v, w, nHeap) && OrderDown(v, w, nHeap, zz)
      decreases nHeap - zz
    {
      var yy := zz * 2;
      if yy > nHeap {
        DownDone(v, w, nHeap, zz);
        break;
      }
      yy := LighterChild(heap, weight, nHeap, zz, v);
      if weight[tmp] < weight[heap[yy]] {
        DownDone(v, w, nHeap, zz);
        break;
      }
      DownStep(v, w, nHeap, zz, yy);
      SwapRearranges(v, zz, yy, 1, nHeap);
      RearrangedTwice(f, v, Swapped(v, zz, yy), 1, nHeap);
      heap[zz] := heap[yy];
      v := Swapped(v, zz, yy);
      zz := yy;
    }
    heap[zz] := tmp;
    assert heap[..] == v;
  }

  lemma DownDone(h: seq<int>, w: seq<int>, n: int, z: int)
    requires Entries(h, w, n) && 1 <= z && OrderDown(h, w, n, z)
    requires forall i :: 2 <= i <= n && i / 2 == z ==> w[h[z]] <= w[h[i]]
    ensures HeapOrder(h, w, n)
  {
  }

  // ------------------------------------------------------------ the heap as a set of nodes

  /** The heap holds exactly the nodes of `nodes`, each once, lightest first. */
  ghost predicate Holds(h: seq<int>, w: seq<int>, n: int, nodes: set<int>) {
    && Entries(h, w, n) && HeapOrder(h, w, n)
    && (forall i, j :: 1 <= i < j <= n ==> h[i] != h[j])
    && (forall i :: 1 <= i <= n ==> h[i] in nodes)
    && (forall k :: k in nodes ==> InHeap(h, n, k))
  }

  ghost predicate InHeap(h: seq<int>, n: int, k: int)
    requires n < |h|
  {
    exists i :: 1 <= i <= n && h[i] == k
  }

  lemma RearrangedHolds(f: seq<int>, g: seq<int>, n: int, nodes: set<int>)
    requires 0 <= n < |f| && Rearranged(f, g, 1, n)
    requires forall i, j :: 1 <= i < j <= n ==> f[i] != f[j]
    requires forall i :: 1 <= i <= n ==> f[i] in nodes
    requires forall k :: k in nodes ==> InHeap(f, n, k)
    ensures |g| == |f|
    ensures forall i, j :: 1 <= i < j <= n ==> g[i] != g[j]
    ensures forall i :: 1 <= i <= n ==> g[i] in nodes
    ensures forall k :: k in nodes ==> InHeap(g, n, k)
  {
    SameLength(f, g, 1, n);
    forall i, j | 1 <= i < j <= n ensures g[i] != g[j] {
      DistinctStays(f, g, 1, n, i, j);
    }
    forall i | 1 <= i <= n ensures g[i] in nodes {
      var k := CameFrom(f, g, 1, n, i);
    }
    forall k | k in nodes ensures InHeap(g, n, k) {
      var i :| 1 <= i <= n && f[i] == k;
      var j := CameFrom(g, f, 1, n, i);
    }
  }

  /** Takes the lightest node: the last entry replaces the first and sinks. */
  method TakeLightest(heap: array<int>, weight: array<int>, nHeap: int, ghost nodes: set<int>) returns (n1: int)
    requires heap != weight && nHeap >= 1 && Holds(heap[..], weight[..], nHeap, nodes)
    modifies heap
    ensures n1 in nodes && 1 <= n1 < weight.Length && Holds(heap[..], weight[..], nHeap - 1, nodes - {n1})
    ensures forall k :: k in nodes ==> 0 <= k < weight.Length && weight[n1] <= weight[k]
  {
    ghost var f, w := heap[..], weight[..];
    LightestFirst(f, w, nHeap, nodes);
    n1 := heap[1];
    heap[1] := heap[nHeap];
    ghost var g := heap[..];
    assert g == f[1 := f[nHeap]];
    LastToFront(f, w, nHeap, nodes);
    hide Holds, Rearranged, HeapOrder, OrderDown, InHeap;
    DownHeap(heap, weight, nHeap - 1);
    RearrangedHolds(g, heap[..], nHeap - 1, nodes - {n1});
    HoldsIs(heap[..], w, nHeap - 1, nodes - {n1});
  }

  lemma HoldsIs(h: seq<int>, w: seq<int>, n: int, nodes: set<int>)
    requires Entries(h, w, n) && HeapOrder(h, w, n)
    requires forall i, j :: 1 <= i < j <= n ==> h[i] != h[j]
    requires forall i :: 1 <= i <= n ==> h[i] in nodes
    requires forall k :: k in nodes ==> InHeap(h, n, k)
    ensures Holds(h, w, n, nodes)
  {
  }

  lemma LightestFirst(h: seq<int>, w: seq<int>, n: int, nodes: set<int>)
    requires Holds(h, w, n, nodes) && n >= 1
    ensures h[1] in nodes && 1 <= h[1] < |w|
    ensures forall k :: k in nodes ==> 0 <= k < |w| && w[h[1]] <= w[k]
  {
    forall k | k in nodes ensures 0 <= k < |w| && w[h[1]] <= w[k] {
      var i :| 1 <= i <= n && h[i] == k;
      RootIsLightest(h, w, n, i);
    }
  }

  lemma LastToFront(f: seq<int>, w: seq<int>, n: int, nodes: set<int>)
    requires Holds(f, w, n, nodes) && n >= 1
    ensures var g := f[1 := f[n]];
            && Entries(g, w, n - 1) && (n > 1 ==> OrderDown(g, w, n - 1, 1))
            && (forall i, j :: 1 <= i < j <= n - 1 ==> g[i] != g[j])
            && (forall i :: 1 <= i <= n - 1 ==> g[i] in nodes - {f[1]})
            && (forall k :: k in nodes - {f[1]} ==> InHeap(g, n - 1, k))
  {
    var g := f[1 := f[n]];
    forall k | k in nodes - {f[1]} ensures InHeap(g, n - 1, k) {
      var i :| 1 <= i <= n && f[i] == k;
      assert if i == n then g[1] == k else g[i] == k;
    }
  }

  /** Adds a node at the end and lets it rise. */
  method AddNode(heap: array<int>, weight: array<int>, nHeap: int, node: int, ghost nodes: set<int>)
    requires heap != weight && 0 <= nHeap && nHeap + 1 < heap.Length && Holds(heap[..], weight[..], nHeap, nodes)
    requires 1 <= node < weight.Length && weight[node] > 0 && node !in nodes
    modifies heap
    ensures Holds(heap[..], weight[..], nHeap + 1, nodes + {node})
  {
    ghost var f, w := heap[..], weight[..];
    heap[nHeap + 1] := node;
    ghost var g := heap[..];
    assert g == f[nHeap + 1 := node];
    PutLast(f, w, nHeap, node, nodes);
    hide Holds, Rearranged, HeapOrder, OrderUp, InHeap;
    UpHeap(heap, weight, nHeap + 1);
    RearrangedHolds(g, heap[..], nHeap + 1, nodes + {node});
    HoldsIs(heap[..], w, nHeap + 1, nodes + {node});
  }

  lemma PutLast(f: seq<int>, w: seq<int>, n: int, node: int, nodes: set<int>)
    requires Holds(f, w, n, nodes) && n + 1 < |f| && 1 <= node < |w| && w[node] > 0 && node !in nodes
    ensures var g := f[n + 1 := node];
            && Entries(g, w, n + 1) && OrderUp(g, w, n + 1, n + 1)
            && (forall i, j :: 1 <= i < j <= n + 1 ==> g[i] != g[j])
            && (forall i :: 1 <= i <= n + 1 ==> g[i] in nodes + {node})
            && (forall k :: k in nodes + {node} ==> InHeap(g, n + 1, k))
  {
    var g := f[n + 1 := node];
    forall k | k in nodes + {node} ensures InHeap(g, n + 1, k) {
      if k == node {
        assert g[n + 1] == k;
      } else {
        var i :| 1 <= i <= n && f[i] == k;
        assert g[i] == k;
      }
    }
  }
}
