/** Names in the order in which a `std::map` keyed by strings lists them, and the walk over its keys. */
module Names {
  import opened Base

  /** Lexicographic order of byte strings, as `std::string` compares. */
  predicate Less(a: string, b: string) {
    b != [] && (a == [] || a[0] < b[0] || (a[0] == b[0] && Less(a[1..], b[1..])))
  }

  /** Where two strings first differ, the smaller character decides; a string comes after its own beginnings. */
  lemma {:induction false} LessMeans(a: string, b: string)
    ensures Less(a, b) <==> exists k :: 0 <= k <= |a| && FirstLess(a, b, k)
    decreases |a|
  {
    if a != [] && b != [] && a[0] == b[0] {
      LessMeans(a[1..], b[1..]);
      if k :| 0 <= k <= |a[1..]| && FirstLess(a[1..], b[1..], k) {
        assert a[..k + 1] == [a[0]] + a[1..][..k] && b[..k + 1] == [b[0]] + b[1..][..k];
        assert FirstLess(a, b, k + 1);
      }
      if k :| 0 <= k <= |a| && FirstLess(a, b, k) {
        assert k > 0;
        assert a[1..][..k - 1] == a[..k][1..] && b[1..][..k - 1] == b[..k][1..];
        assert FirstLess(a[1..], b[1..], k - 1);
      }
    } else {
      assert a[..0] == b[..0] == [];
      assert Less(a, b) ==> FirstLess(a, b, 0);
      if k :| 0 <= k <= |a| && FirstLess(a, b, k) { SameStart(a, b, k); }
    }
  }

  lemma SameStart(a: string, b: string, k: int)
    requires 0 <= k <= |a| && FirstLess(a, b, k)
    ensures b != [] && (k > 0 ==> a != [] && a[0] == b[0])
  {
    if k > 0 { assert a[..k][0] == a[0] && b[..k][0] == b[0]; }
  }

  ghost predicate FirstLess(a: string, b: string, k: int)
    requires 0 <= k <= |a|
  {
    k < |b| && a[..k] == b[..k] && (k == |a| || a[k] < b[k])
  }

  lemma {:induction false} LessTotal(a: string, b: string)
    ensures Less(a, b) || a == b || Less(b, a)
    ensures Less(a, b) ==> a != b && !Less(b, a)
  {
    if a != [] && b != [] {
      LessTotal(a[1..], b[1..]);
      assert a == [a[0]] + a[1..] && b == [b[0]] + b[1..];
    }
  }

  lemma {:induction false} LessTransitive(a: string, b: string, c: string)
    requires Less(a, b) && Less(b, c)
    ensures Less(a, c)
  {
    if a != [] && a[0] == b[0] == c[0] {
      LessTransitive(a[1..], b[1..], c[1..]);
    }
  }

  /** A common prefix does not matter. */
  lemma {:induction false} LessPrefix(p: string, a: string, b: string)
    ensures Less(p + a, p + b) <==> Less(a, b)
    decreases |p|
  {
    if p == [] {
      assert p + a == a && p + b == b;
    } else {
      LessPrefix(p[1..], a, b);
      assert (p + a)[1..] == p[1..] + a && (p + b)[1..] == p[1..] + b;
    }
  }

  ghost predicate IsLeast(s: set<string>, x: string) {
    x in s && forall y :: y in s && y != x ==> Less(x, y)
  }

  lemma {:induction false} LeastExists(s: set<string>) returns (x: string)
    requires s != {}
    ensures IsLeast(s, x)
    decreases s
  {
    x :| x in s;
    var t := s - {x};
    assert forall z :: z in s && z != x ==> z in t;
    if t != {} {
      var y := LeastExists(t);
      LessTotal(x, y);
      if Less(y, x) {
        x := y;
      } else {
        forall z | z in s && z != x ensures Less(x, z) {
          if z != y { LessTransitive(x, y, z); }
        }
      }
    }
  }

  /** `begin()`: the least key, if there is one. */
  function First(s: set<string>): (r: Option<string>)
    ensures r.None? <==> s == {}
    ensures r.Some? ==> IsLeast(s, r.value)
  {
    if s == {} then None
    else
      ghost var w := LeastOf(s);
      assert IsLeast(s, w);
      LeastUnique(s);
      var x :| IsLeastOf(s, x);
      Some(x)
  }

  ghost function LeastOf(s: set<string>): (x: string)
    requires s != {}
    ensures IsLeast(s, x)
  {
    assert exists x :: IsLeast(s, x) by { var x := LeastExists(s); }
    var x :| IsLeast(s, x);
    x
  }

  predicate IsLeastOf(s: set<string>, x: string)
    ensures IsLeastOf(s, x) <==> IsLeast(s, x)
  {
    x in s && forall y | y in s && y != x :: Less(x, y)
  }

  lemma LeastUnique(s: set<string>)
    ensures forall x, y :: IsLeastOf(s, x) && IsLeastOf(s, y) ==> x == y
  {
    forall x, y | IsLeastOf(s, x) && IsLeastOf(s, y) ensures x == y {
      LessTotal(x, y);
    }
  }

  /** `++it`: the least key above `k`, if there is one. */
  function Next(s: set<string>, k: string): (r: Option<string>)
    ensures r.None? <==> forall x :: x in s ==> !Less(k, x)
    ensures r.Some? ==> r.value in s && Less(k, r.value)
    ensures r.Some? ==> forall x :: x in s && Less(k, x) && x != r.value ==> Less(r.value, x)
  {
    var t := set x | x in s && Less(k, x);
    assert forall x :: x in s && Less(k, x) ==> x in t;
    First(t)
  }

  /** Nothing stands between a key and the next one. */
  lemma NextGap(s: set<string>, k: string, x: string)
    requires x in s
    ensures Next(s, k).None? ==> x == k || Less(x, k)
    ensures Next(s, k).Some? ==> x == k || Less(x, k) || x == Next(s, k).value || Less(Next(s, k).value, x)
  {
    LessTotal(k, x);
  }

  /** The walk has not come to `k` yet. */
  predicate NotYet(it: Option<string>, k: string) {
    it.Some? && (k == it.value || Less(it.value, k))
  }

  /** The keys a walk has still to visit. */
  ghost function Ahead(keys: set<string>, it: Option<string>): set<string> {
    set x | x in keys && NotYet(it, x)
  }

  lemma WalkStarts(keys: set<string>)
    ensures Ahead(keys, First(keys)) == keys
  {
  }

  lemma WalkEnds(keys: set<string>)
    ensures Ahead(keys, None) == {}
  {
  }

  /** One step of a walk over keys passes exactly the key it stood on. */
  lemma WalkSteps(keys: set<string>, k: string)
    requires k in keys
    ensures k in Ahead(keys, Some(k)) && k !in Ahead(keys, Next(keys, k))
    ensures Ahead(keys, Next(keys, k)) == Ahead(keys, Some(k)) - {k}
    ensures Next(keys, k).Some? ==> Next(keys, k).value in keys
  {
    var next := Next(keys, k);
    forall x | x in keys ensures NotYet(next, x) <==> NotYet(Some(k), x) && x != k {
      NextGap(keys, k, x);
      LessTotal(k, x);
      if next.Some? {
        LessTotal(next.value, x);
        LessTotal(k, next.value);
        if Less(next.value, x) { LessTransitive(k, next.value, x); }
      }
    }
  }
}
