/** Rearranging part of a sequence: what swaps and insertions keep. */
module Rearrange {
  import opened Base

  /** `g` is `f` with the entries at places lo..hi rearranged and nothing else touched. */
  ghost predicate Rearranged(f: seq<int>, g: seq<int>, lo: int, hi: int) {
    && |f| == |g|
    && multiset(f) == multiset(g)
    && forall k :: 0 <= k < |f| && !(lo <= k <= hi) ==> g[k] == f[k]
  }

  /** The rearranged part holds every value as often as before. */
  lemma PartsAgree(f: seq<int>, g: seq<int>, lo: int, hi: int, x: int)
    requires Rearranged(f, g, lo, hi) && 0 <= lo <= hi + 1 <= |f|
    ensures multiset(f[lo..hi + 1])[x] == multiset(g[lo..hi + 1])[x]
  {
    ThreeParts(f, lo, hi, x);
    ThreeParts(g, lo, hi, x);
    assert g[..lo] == f[..lo] && g[hi + 1..] == f[hi + 1..];
  }

  lemma ThreeParts(f: seq<int>, lo: int, hi: int, x: int)
    requires 0 <= lo <= hi + 1 <= |f|
    ensures multiset(f)[x] == multiset(f[..lo])[x] + multiset(f[lo..hi + 1])[x] + multiset(f[hi + 1..])[x]
  {
    var part, rest := f[lo..hi + 1], f[hi + 1..];
    assert f == f[..lo] + (part + rest);
    assert multiset(f[..lo] + (part + rest))[x] == multiset(f[..lo])[x] + multiset(part + rest)[x];
  }

  /** An entry that lies in the rearranged part came from the rearranged part. */
  lemma CameFrom(f: seq<int>, g: seq<int>, lo: int, hi: int, k: int) returns (from: int)
    requires Rearranged(f, g, lo, hi) && 0 <= lo <= k <= hi < |f|
    ensures lo <= from <= hi && f[from] == g[k]
  {
    PartsAgree(f, g, lo, hi, g[k]);
    assert g[lo..hi + 1][k - lo] == g[k];
    var m :| 0 <= m < |f[lo..hi + 1]| && f[lo..hi + 1][m] == g[k];
    from := lo + m;
  }

  lemma DistinctStays(f: seq<int>, g: seq<int>, lo: int, hi: int, i: int, j: int)
    requires Rearranged(f, g, lo, hi) && 0 <= lo <= i < j <= hi < |f|
    requires forall i, j :: lo <= i < j <= hi ==> f[i] != f[j]
    ensures g[i] != g[j]
  {
    PartsAgree(f, g, lo, hi, g[i]);
    hide Rearranged;
    DistinctOnce(f[lo..hi + 1], g[i]);
    TwiceCounts(g[lo..hi + 1], i - lo, j - lo);
  }

  /** No entry occurs twice. */
  ghost predicate Apart(f: seq<int>) {
    forall i, j :: 0 <= i < j < |f| ==> f[i] != f[j]
  }

  lemma ApartStays(f: seq<int>, g: seq<int>, lo: int, hi: int)
    requires Rearranged(f, g, lo, hi) && Apart(f) && 0 <= lo && hi < |f|
    ensures Apart(g)
  {
    SameLength(f, g, lo, hi);
    Widen(f, g, 0, |f| - 1, lo, hi);
    hide Rearranged;
    forall i, j | 0 <= i < j < |g| ensures g[i] != g[j] { DistinctStays(f, g, 0, |f| - 1, i, j); }
  }

  lemma TwiceCounts(q: seq<int>, i: int, j: int)
    requires 0 <= i < j < |q|
    ensures q[i] == q[j] ==> multiset(q)[q[i]] >= 2
  {
    assert q == q[..j] + q[j..] && q[..j][i] == q[i] && q[j..][0] == q[j];
    assert multiset(q)[q[i]] == multiset(q[..j])[q[i]] + multiset(q[j..])[q[i]];
  }

  lemma RearrangedTwice(f: seq<int>, g: seq<int>, h: seq<int>, lo: int, hi: int)
    requires Rearranged(f, g, lo, hi) && Rearranged(g, h, lo, hi)
    ensures Rearranged(f, h, lo, hi)
  {
  }

  lemma SwapRearranges(f: seq<int>, i: int, j: int, lo: int, hi: int)
    requires 0 <= lo <= i <= hi < |f| && lo <= j <= hi
    ensures Rearranged(f, f[i := f[j]][j := f[i]], lo, hi)
  {
  }

  function Swapped(f: seq<int>, i: int, j: int): seq<int>
    requires 0 <= i < |f| && 0 <= j < |f|
  {
    f[i := f[j]][j := f[i]]
  }

  lemma SameLength(f: seq<int>, g: seq<int>, lo: int, hi: int)
    requires Rearranged(f, g, lo, hi)
    ensures |f| == |g|
  {
  }

  lemma Widen(f: seq<int>, g: seq<int>, lo: int, hi: int, lo': int, hi': int)
    requires Rearranged(f, g, lo', hi') && lo <= lo' && hi' <= hi
    ensures Rearranged(f, g, lo, hi)
  {
  }

  lemma {:induction false} DistinctOnce(s: seq<int>, x: int)
    requires forall i, j :: 0 <= i < j < |s| ==> s[i] != s[j]
    ensures multiset(s)[x] <= 1
  {
    if s != [] {
      var t := s[..|s| - 1];
      DistinctOnce(t, x);
      assert s == t + [s[|s| - 1]];
      if s[|s| - 1] == x {
        assert x !in t;
      }
    }
  }
}
