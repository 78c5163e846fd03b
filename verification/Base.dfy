/** Bytes, powers, permutations of an index range and counting: the vocabulary shared by all modules. */
module Base {
  type byte = x: int | 0 <= x < 256

  datatype Option<+T> = None | Some(value: T)

  function Min(a: int, b: int): int { if a < b then a else b }

  function Max(a: int, b: int): int { if a > b then a else b }

  function Pow2(n: nat): (p: nat)
    ensures p >= 1
  {
    if n == 0 then 1 else 2 * Pow2(n - 1)
  }

  lemma {:induction false} Pow2Add(a: nat, b: nat)
    ensures Pow2(a + b) == Pow2(a) * Pow2(b)
  {
    if a > 0 {
      Pow2Add(a - 1, b);
      assert Pow2(a) * Pow2(b) == 2 * (Pow2(a - 1) * Pow2(b));
    }
  }

  lemma Pow2Values()
    ensures Pow2(0) == 1 && Pow2(1) == 2 && Pow2(3) == 8 && Pow2(5) == 32 && Pow2(8) == 0x100
    ensures Pow2(15) == 0x8000 && Pow2(16) == 0x1_0000
    ensures Pow2(24) == 0x100_0000 && Pow2(29) == 0x2000_0000 && Pow2(32) == 0x1_0000_0000
  {
    assert Pow2(4) == 16;
    Pow2Add(4, 1);
    Pow2Add(4, 4);
    Pow2Add(8, 8);
    Pow2Add(16, 8);
    Pow2Add(24, 8);
    Pow2Add(24, 5);
    assert Pow2(16) == 2 * Pow2(15);
  }

  lemma {:induction false} Pow2Monotone(a: nat, b: nat)
    requires a <= b
    ensures Pow2(a) <= Pow2(b)
  {
    if a < b {
      Pow2Monotone(a, b - 1);
    }
  }

  /** Reading two digits apart: the leading digit decides, then the remainder. */
  lemma LeadingDigit(a: int, b: int, c: int, d: int, m: nat)
    requires 0 <= b < m && 0 <= d < m
    ensures a * m + b <= c * m + d <==> a < c || (a == c && b <= d)
    ensures a * m + b == c * m + d <==> a == c && b == d
  {
    if a < c {
      assert c * m >= (a + 1) * m;
    } else if c < a {
      assert a * m >= (c + 1) * m;
    }
  }

  lemma QuotientIs(v: int, q: int, p: int, r: int)
    requires p > 0 && 0 <= r < p && v == q * p + r
    ensures v / p == q && v % p == r
  {
    LeadingDigit(v / p, v % p, q, r, p);
  }

  lemma Assoc<T>(a: seq<T>, b: seq<T>, c: seq<T>)
    ensures a + b + c == a + (b + c)
  {
  }

  /** `p` lists every number below `n` exactly once. */
  ghost predicate IsPerm(p: seq<int>, n: nat) {
    && |p| == n
    && (forall i :: 0 <= i < n ==> 0 <= p[i] < n)
    && (forall i, j :: 0 <= i < j < n ==> p[i] != p[j])
  }

  ghost function Below(n: nat): (s: set<int>)
    ensures forall x :: x in s <==> 0 <= x < n
    ensures |s| == n
  {
    if n == 0 then {} else Below(n - 1) + {n - 1}
  }

  ghost function Elements(s: seq<int>): (e: set<int>)
    ensures forall x :: x in e <==> x in s
  {
    set x | x in s
  }

  lemma {:induction false} DistinctSize(s: seq<int>)
    requires forall i, j :: 0 <= i < j < |s| ==> s[i] != s[j]
    ensures |Elements(s)| == |s|
  {
    if s == [] {
      assert Elements(s) == {};
    } else {
      var t := s[..|s| - 1];
      DistinctSize(t);
      assert Elements(s) == Elements(t) + {s[|s| - 1]};
    }
  }

  lemma SubsetSize(a: set<int>, b: set<int>)
    requires a <= b
    ensures |a| <= |b|
    ensures |a| == |b| ==> a == b
  {
    assert b == a + (b - a);
    if |a| == |b| {
      assert |b - a| == 0;
    }
  }

  lemma DistinctBounded(s: seq<int>, n: nat)
    requires forall i, j :: 0 <= i < j < |s| ==> s[i] != s[j]
    requires forall i :: 0 <= i < |s| ==> 0 <= s[i] < n
    ensures |s| <= n
  {
    DistinctSize(s);
    SubsetSize(Elements(s), Below(n));
  }

  /** A permutation of an index range reaches every index. */
  lemma PermOnto(p: seq<int>, n: nat, v: int)
    requires IsPerm(p, n) && 0 <= v < n
    ensures v in p
  {
    DistinctSize(p);
    SubsetSize(Elements(p), Below(n));
    assert v in Below(n);
  }

  /** The position of each index in a permutation. */
  function Inverse(p: seq<int>): (q: seq<int>)
    requires IsPerm(p, |p|)
    ensures |q| == |p|
    ensures forall v :: 0 <= v < |p| ==> 0 <= q[v] < |p| && p[q[v]] == v
  {
    seq(|p|, v requires 0 <= v < |p| => IndexIn(p, v))
  }

  function IndexIn(p: seq<int>, v: int): (i: int)
    requires IsPerm(p, |p|) && 0 <= v < |p|
    ensures 0 <= i < |p| && p[i] == v
  {
    PermOnto(p, |p|, v);
    var i :| 0 <= i < |p| && p[i] == v;
    i
  }

  lemma InverseIsPerm(p: seq<int>)
    requires IsPerm(p, |p|)
    ensures IsPerm(Inverse(p), |p|)
    ensures forall i :: 0 <= i < |p| ==> Inverse(p)[p[i]] == i
  {
    var q := Inverse(p);
    forall i, j | 0 <= i < j < |p| ensures q[i] != q[j] {
      assert p[q[i]] == i && p[q[j]] == j;
    }
    forall i | 0 <= i < |p| ensures q[p[i]] == i {
      assert p[q[p[i]]] == p[i];
    }
  }

  /**
   * Two listings of the same index range that both put the keys in nondecreasing order
   * show the same keys, place by place, however they break ties.
   */
  lemma SortedKeysAgree(keys: seq<int>, p: seq<int>, q: seq<int>, i: int)
    requires IsPerm(p, |keys|) && IsPerm(q, |keys|) && 0 <= i < |keys|
    requires forall a, b :: 0 <= a <= b < |keys| ==> keys[p[a]] <= keys[p[b]]
    requires forall a, b :: 0 <= a <= b < |keys| ==> keys[q[a]] <= keys[q[b]]
    ensures keys[p[i]] == keys[q[i]]
  {
    NotSmaller(keys, p, q, i);
    NotSmaller(keys, q, p, i);
  }

  lemma NotSmaller(keys: seq<int>, p: seq<int>, q: seq<int>, i: int)
    requires IsPerm(p, |keys|) && IsPerm(q, |keys|) && 0 <= i < |keys|
    requires forall a, b :: 0 <= a <= b < |keys| ==> keys[p[a]] <= keys[p[b]]
    requires forall a, b :: 0 <= a <= b < |keys| ==> keys[q[a]] <= keys[q[b]]
    ensures keys[q[i]] <= keys[p[i]]
  {
    if keys[p[i]] < keys[q[i]] {
      var few, many := Elements(q[..i]), Elements(p[..i + 1]);
      DistinctSize(q[..i]);
      DistinctSize(p[..i + 1]);
      forall x | x in many ensures x in few {
        var a :| 0 <= a < i + 1 && p[a] == x;
        PermOnto(q, |keys|, x);
        var c :| 0 <= c < |keys| && q[c] == x;
        assert keys[q[c]] <= keys[p[i]];
        assert c < i;
        assert q[..i][c] == x;
      }
      SubsetSize(many, few);
    }
  }
}
