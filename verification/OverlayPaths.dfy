/**
 * What becomes of one path: which module's file is found there once all modules have been collected, and from which
 * module it is mounted.
 */
module OverlayPaths {
  import opened Base
  import opened Overlay

  // ------------------------------------------------------------ paths in trees and in listings

  /** The node at a path of names below `n`. */
  function At(n: Node, p: seq<string>): (r: Option<Node>)
    requires p != []
    decreases |p|
  {
    if p[0] !in n.children then None
    else if |p| == 1 then Some(n.children[p[0]])
    else At(n.children[p[0]], p[1..])
  }

  /** Entry `j` of a listing is collected: it is no replace marker, and none stands before it. */
  predicate Reached(list: seq<Entry>, j: int) {
    0 <= j < |list| && !Replaces(list[..j + 1])
  }

  /** A file, or a directory that replaces what is there. */
  predicate TakesOver(e: Entry) {
    !e.fileType.Dir? || (e.opens && Replaces(e.listing))
  }

  /** Collecting entry `e` takes over path `p`, which begins with the name of `e`. */
  predicate Fixes(e: Entry, p: seq<string>)
    requires p != []
    decreases |p|, 0
  {
    if |p| == 1 then TakesOver(e) else e.fileType.Dir? && e.opens && Settles(e.listing, p[1..])
  }

  /** Collecting a listing takes over path `p`. */
  predicate Settles(list: seq<Entry>, p: seq<string>)
    requires p != []
    decreases |p|, 1
  {
    exists j | 0 <= j < |list| :: Reached(list, j) && list[j].name == p[0] && Fixes(list[j], p)
  }

  predicate ModuleSettles(m: Source, p: seq<string>)
    requires p != []
  {
    m.opens && Settles(m.listing, p)
  }

  /** The first module that takes over path `p`. */
  function FirstSettler(ms: seq<Source>, p: seq<string>): (r: Option<string>)
    requires p != []
    ensures r.None? <==> forall i :: 0 <= i < |ms| ==> !ModuleSettles(ms[i], p)
    ensures forall s :: r == Some(s) <==> SettledFirst(ms, p, s)
  {
    if ms == [] then None
    else
      var r := FirstSettler(ms[..|ms| - 1], p);
      SettledLast(ms, p);
      if r.Some? then r else if ModuleSettles(ms[|ms| - 1], p) then Some(ms[|ms| - 1].name) else None
  }

  lemma SettledLast(ms: seq<Source>, p: seq<string>)
    requires ms != [] && p != []
    ensures var (i, t) := (|ms| - 1, ms[..|ms| - 1]);
            var none := forall k :: 0 <= k < i ==> !ModuleSettles(t[k], p);
            && ((forall k :: 0 <= k <= i ==> !ModuleSettles(ms[k], p)) <==> none && !ModuleSettles(ms[i], p))
            && forall s :: SettledFirst(ms, p, s) <==>
                           SettledFirst(t, p, s) || (none && ModuleSettles(ms[i], p) && ms[i].name == s)
  {
    hide ModuleSettles;
    var (i, t) := (|ms| - 1, ms[..|ms| - 1]);
    forall k | 0 <= k < i ensures SettlesAt(ms, p, k) <==> SettlesAt(t, p, k) {
      forall m | 0 <= m < k ensures ms[m] == t[m] {}
    }
    forall s ensures SettledFirst(ms, p, s) <==>
                     SettledFirst(t, p, s) || (SettlesAt(ms, p, i) && ms[i].name == s) {
      if k :| 0 <= k < |t| && SettlesAt(t, p, k) && t[k].name == s { assert SettlesAt(ms, p, k); }
    }
    assert (forall k :: 0 <= k < i ==> !ModuleSettles(ms[k], p))
           <==> (forall k :: 0 <= k < i ==> !ModuleSettles(t[k], p)) by {
      assert forall k :: 0 <= k < i ==> ms[k] == t[k];
    }
  }

  ghost predicate SettledFirst(ms: seq<Source>, p: seq<string>, s: string)
    requires p != []
  {
    exists i :: 0 <= i < |ms| && SettlesAt(ms, p, i) && ms[i].name == s
  }

  ghost predicate SettlesAt(ms: seq<Source>, p: seq<string>, i: int)
    requires p != [] && 0 <= i < |ms|
  {
    ModuleSettles(ms[i], p) && forall k :: 0 <= k < i ==> !ModuleSettles(ms[k], p)
  }

  // ------------------------------------------------------------ one name, entry by entry

  /** An entry that is collected, and the module it comes from. */
  datatype Laying = Laying(e: Entry, source: string)

  ghost function LayingsOf(list: seq<Entry>, n: string, source: string): (ev: seq<Laying>)
    ensures forall i :: 0 <= i < |ev| ==> ev[i].e.name == n && ev[i].source == source
  {
    if list == [] then []
    else
      var i := |list| - 1;
      LayingsOf(list[..i], n, source)
          + if !Replaces(list) && list[i].name == n then [Laying(list[i], source)] else []
  }

  /** All entries of one name, in the order in which they are collected. */
  ghost function Layings(ms: seq<Source>, n: string): (ev: seq<Laying>)
    ensures forall i :: 0 <= i < |ev| ==> ev[i].e.name == n
  {
    if ms == [] then []
    else
      var m := ms[|ms| - 1];
      Layings(ms[..|ms| - 1], n) + if m.opens then LayingsOf(m.listing, n, m.name) else []
  }

  /** The module of the first entry that takes over `p`. */
  ghost function FirstFix(ev: seq<Laying>, p: seq<string>): Option<string>
    requires p != []
  {
    if ev == [] then None
    else
      var r := FirstFix(ev[..|ev| - 1], p);
      if r.Some? then r else if Fixes(ev[|ev| - 1].e, p) then Some(ev[|ev| - 1].source) else None
  }

  /** The directories among the entries, as modules of their own. */
  ghost function Inside(ev: seq<Laying>): (ms: seq<Source>)
    ensures |ms| == |ev|
  {
    if ev == [] then []
    else
      var x := ev[|ev| - 1];
      Inside(ev[..|ev| - 1]) + [Source(x.source, x.e.opens, x.e.listing)]
  }

  ghost function Empty(): (t: Node)
    ensures NamesMatch(t) && t.children == map[]
  {
    Bare("", Dir, Root, "")
  }

  /**
   * What stands under a name after the entries of that name: a file or module directory, or a directory of all of
   * them.
   */
  ghost predicate Outcome(ev: seq<Laying>, n: string, r: Option<Node>) {
    && (r.Some? ==> NamesMatch(r.value) && r.value.name == n)
    && match FirstFix(ev, [n])
       case Some(s) => r.Some? && r.value.kind.Module? && r.value.source == s && r.value.children == map[]
       case None =>
         (ev == [] ==> r.None?)
         && (ev != [] ==>
             && r.Some? && r.value.kind.Inter? && r.value.source == ev[0].source
             && r.value.children == CollectAll(Empty(), Inside(ev)).children)
  }

  lemma {:induction false} SameChildren(a: Node, b: Node, list: seq<Entry>, source: string)
    requires NamesMatch(a) && NamesMatch(b) && a.children == b.children
    ensures Collect(a, list, source).children == Collect(b, list, source).children
    decreases |list|
  {
    if list != [] {
      var p := list[..|list| - 1];
      SameChildren(a, b, p, source);
      if !Replaces(list) {
        EntryShows(Collect(a, p, source), list[|list| - 1], source);
        EntryShows(Collect(b, p, source), list[|list| - 1], source);
      }
    }
  }

  lemma LaidNames(there: Option<Node>, e: Entry, source: string)
    requires there.Some? ==> NamesMatch(there.value) && there.value.name == e.name
    ensures NamesMatch(LaidNode(there, e, source))
  {
  }

  lemma OutcomeStep(ev: seq<Laying>, n: string, there: Option<Node>, x: Laying)
    requires Outcome(ev, n, there) && x.e.name == n
    ensures Outcome(ev + [x], n, Some(LaidNode(there, x.e, x.source)))
  {
    LaidNames(there, x.e, x.source);
    assert (ev + [x])[..|ev|] == ev;
    var r := LaidNode(there, x.e, x.source);
    if FirstFix(ev, [n]).None? && !TakesOver(x.e) {
      var inside := Inside(ev);
      assert Inside(ev + [x])[..|ev|] == inside;
      if x.e.opens {
        SameChildren(Opened(there, x.e, x.source), CollectAll(Empty(), inside), x.e.listing, x.source);
      }
    }
  }

  lemma {:induction false} ListOutcome(t: Node, list: seq<Entry>, source: string, n: string, ev: seq<Laying>)
    requires NamesMatch(t) && Outcome(ev, n, Lookup(t.children, n))
    ensures Outcome(ev + LayingsOf(list, n, source), n, Lookup(Collect(t, list, source).children, n))
    decreases |list|
  {
    if list == [] {
      assert ev + [] == ev;
    } else {
      var p, e := list[..|list| - 1], list[|list| - 1];
      ListOutcome(t, p, source, n, ev);
      var s, before := Collect(t, p, source), ev + LayingsOf(p, n, source);
      if !Replaces(list) {
        hide Outcome, LaidNode, CollectEntry, Collect;
        EntryShows(s, e, source);
        if e.name == n {
          OutcomeStep(before, n, Lookup(s.children, n), Laying(e, source));
          assert before + [Laying(e, source)] == ev + LayingsOf(list, n, source);
        } else {
          assert before == ev + LayingsOf(list, n, source);
        }
      } else {
        assert before == ev + LayingsOf(list, n, source);
      }
    }
  }

  lemma {:induction false} AllOutcome(t: Node, ms: seq<Source>, n: string)
    requires NamesMatch(t) && t.children == map[]
    ensures Outcome(Layings(ms, n), n, Lookup(CollectAll(t, ms).children, n))
  {
    if ms != [] {
      var m := ms[|ms| - 1];
      AllOutcome(t, ms[..|ms| - 1], n);
      if m.opens {
        ListOutcome(CollectAll(t, ms[..|ms| - 1]), m.listing, m.name, n, Layings(ms[..|ms| - 1], n));
      } else {
        assert Layings(ms[..|ms| - 1], n) + [] == Layings(ms[..|ms| - 1], n);
      }
    }
  }

  // ------------------------------------------------------------ listings against entries

  lemma SettlesLast(list: seq<Entry>, p: seq<string>)
    requires list != [] && p != []
    ensures var i := |list| - 1;
            Settles(list, p) <==>
            Settles(list[..i], p) || (!Replaces(list) && list[i].name == p[0] && Fixes(list[i], p))
  {
    hide *;
    var i := |list| - 1;
    assert list[..i + 1] == list;
    if Settles(list, p) {
      var j := SettlesBy(list, p);
      if j < i { SettlesIf(list[..i], p, j); }
    }
    if Settles(list[..i], p) {
      var j := SettlesBy(list[..i], p);
      assert list[..i][..j + 1] == list[..j + 1] && list[..i][j] == list[j];
      SettlesIf(list, p, j);
    }
    if !Replaces(list) && list[i].name == p[0] && Fixes(list[i], p) { SettlesIf(list, p, i); }
  }

  lemma SettlesBy(list: seq<Entry>, p: seq<string>) returns (j: int)
    requires p != [] && Settles(list, p)
    ensures 0 <= j < |list| && !Replaces(list[..j + 1]) && list[j].name == p[0] && Fixes(list[j], p)
    ensures forall k :: j < k <= |list| ==> list[..k][j] == list[j] && list[..k][..j + 1] == list[..j + 1]
  {
    hide Fixes, Replaces;
    j :| 0 <= j < |list| && Reached(list, j) && list[j].name == p[0] && Fixes(list[j], p);
  }

  lemma SettlesIf(list: seq<Entry>, p: seq<string>, j: int)
    requires p != [] && 0 <= j < |list| && !Replaces(list[..j + 1]) && list[j].name == p[0] && Fixes(list[j], p)
    ensures Settles(list, p)
  {
    hide Fixes, Replaces;
    assert Reached(list, j);
  }

  lemma FixLast(ev: seq<Laying>, x: Laying, p: seq<string>)
    requires p != []
    ensures FirstFix(ev + [x], p)
            == if FirstFix(ev, p).Some? then FirstFix(ev, p) else if Fixes(x.e, p) then Some(x.source) else None
  {
    hide Fixes;
    assert (ev + [x])[..|ev|] == ev;
  }

  lemma LayingsLast(list: seq<Entry>, n: string, source: string, ev: seq<Laying>)
    requires list != []
    ensures var (i, e) := (|list| - 1, list[|list| - 1]);
            var before := ev + LayingsOf(list[..i], n, source);
            ev + LayingsOf(list, n, source)
            == if !Replaces(list) && e.name == n then before + [Laying(e, source)] else before
  {
    hide Replaces;
    var i := |list| - 1;
    if !Replaces(list) && list[i].name == n {
      Assoc(ev, LayingsOf(list[..i], n, source), [Laying(list[i], source)]);
    } else {
      assert LayingsOf(list[..i], n, source) + [] == LayingsOf(list[..i], n, source);
    }
  }

  lemma NothingLaid(ev: seq<Laying>, n: string, source: string, p: seq<string>)
    requires p != []
    ensures ev + LayingsOf([], n, source) == ev && !Settles([], p)
  {
  }

  lemma {:induction false} ListFix(list: seq<Entry>, source: string, p: seq<string>, ev: seq<Laying>)
    requires p != []
    ensures FirstFix(ev + LayingsOf(list, p[0], source), p)
            == if FirstFix(ev, p).Some? then FirstFix(ev, p) else if Settles(list, p) then Some(source) else None
    decreases |list|
  {
    hide *;
    if list == [] {
      NothingLaid(ev, p[0], source, p);
    } else {
      var i := |list| - 1;
      ListFix(list[..i], source, p, ev);
      SettlesLast(list, p);
      LayingsLast(list, p[0], source, ev);
      FixLast(ev + LayingsOf(list[..i], p[0], source), Laying(list[i], source), p);
    }
  }

  /** The first entry that takes over a path is of the first module that does. */
  lemma {:induction false} FixesAreSettlers(ms: seq<Source>, p: seq<string>)
    requires p != []
    ensures FirstFix(Layings(ms, p[0]), p) == FirstSettler(ms, p)
  {
    hide Settles, Fixes;
    if ms != [] {
      var i := |ms| - 1;
      FixesAreSettlers(ms[..i], p);
      if ms[i].opens {
        ListFix(ms[i].listing, ms[i].name, p, Layings(ms[..i], p[0]));
      } else {
        assert Layings(ms[..i], p[0]) + [] == Layings(ms[..i], p[0]);
      }
    }
  }

  /** Below a directory that no entry takes over, its entries act as modules of their own. */
  lemma {:induction false} FixesInside(ev: seq<Laying>, p: seq<string>)
    requires |p| > 1 && FirstFix(ev, p[..1]).None?
    ensures FirstFix(ev, p) == FirstSettler(Inside(ev), p[1..])
  {
    hide Settles;
    if ev != [] {
      var i := |ev| - 1;
      assert FirstFix(ev[..i], p[..1]).None?;
      FixesInside(ev[..i], p);
      assert Inside(ev)[..i] == Inside(ev[..i]);
      assert !Fixes(ev[i].e, p[..1]);
      assert Fixes(ev[i].e, p) <==> ModuleSettles(Inside(ev)[i], p[1..]);
    }
  }

  // ------------------------------------------------------------ which module has a path

  /** The file of module `s`, or the directory that it replaced. */
  ghost predicate Has(n: Node, p: seq<string>, s: string)
    requires p != []
  {
    At(n, p).Some? && At(n, p).value.kind.Module? && At(n, p).value.source == s
  }

  /** Some module takes over a directory above `p`. */
  ghost predicate Covered(ms: seq<Source>, p: seq<string>) {
    exists k :: 0 < k < |p| && FirstSettler(ms, p[..k]).Some?
  }

  /**
   * After all modules a path is the first module's that takes it over, and of nobody when a directory above it has been
   * taken over: that directory has no children then.
   */
  lemma {:induction false} FileAt(t: Node, ms: seq<Source>, p: seq<string>)
    requires NamesMatch(t) && t.children == map[] && p != []
    ensures forall s :: Has(CollectAll(t, ms), p, s) <==> !Covered(ms, p) && FirstSettler(ms, p) == Some(s)
    ensures At(CollectAll(t, ms), p).Some? ==>
            At(CollectAll(t, ms), p).value.kind.Inter? || At(CollectAll(t, ms), p).value.kind.Module?
    ensures Covered(ms, p) ==> At(CollectAll(t, ms), p).None?
    decreases |p|
  {
    var (r, ev) := (CollectAll(t, ms), Layings(ms, p[0]));
    AllOutcome(t, ms, p[0]);
    FixesAreSettlers(ms, p[..1]);
    assert p[..1] == [p[0]];
    if |p| == 1 {
      assert p == p[..1];
      OneName(r, ms, p[0]);
    } else {
      hide Settles, Fixes, FirstSettler, FirstFix, Outcome, CollectAll, Inside, Layings;
      FixesAreSettlers(ms, p);
      if FirstSettler(ms, p[..1]).Some? {
        assert Covered(ms, p);
        BelowTaken(r, ev, p);
      } else {
        FixesInside(ev, p);
        CoveredInside(ms, ev, p);
        FileAt(Empty(), Inside(ev), p[1..]);
        BelowDirectory(r, ev, p);
      }
    }
  }

  lemma OneName(r: Node, ms: seq<Source>, n: string)
    requires Outcome(Layings(ms, n), n, Lookup(r.children, n)) && FirstFix(Layings(ms, n), [n]) == FirstSettler(ms, [n])
    ensures forall s :: Has(r, [n], s) <==> FirstSettler(ms, [n]) == Some(s)
    ensures At(r, [n]).Some? ==> At(r, [n]).value.kind.Inter? || At(r, [n]).value.kind.Module?
  {
    hide FirstSettler, FirstFix;
  }

  /** What lies below a directory that nothing takes over. */
  lemma BelowDirectory(r: Node, ev: seq<Laying>, p: seq<string>)
    requires |p| > 1 && Outcome(ev, p[0], Lookup(r.children, p[0])) && FirstFix(ev, [p[0]]).None?
    ensures At(r, p) == At(CollectAll(Empty(), Inside(ev)), p[1..])
  {
    if ev == [] {
      assert Inside(ev) == [];
    } else {
      SameAt(r.children[p[0]], CollectAll(Empty(), Inside(ev)), p[1..]);
    }
  }

  lemma BelowTaken(r: Node, ev: seq<Laying>, p: seq<string>)
    requires |p| > 1 && Outcome(ev, p[0], Lookup(r.children, p[0])) && FirstFix(ev, [p[0]]).Some?
    ensures At(r, p).None?
  {
  }

  lemma SameAt(a: Node, b: Node, p: seq<string>)
    requires p != [] && a.children == b.children
    ensures At(a, p) == At(b, p)
  {
  }

  lemma CoveredInside(ms: seq<Source>, ev: seq<Laying>, p: seq<string>)
    requires |p| > 1 && ev == Layings(ms, p[0]) && FirstFix(ev, p[..1]).None? && FirstSettler(ms, p[..1]).None?
    ensures Covered(ms, p) <==> Covered(Inside(ev), p[1..])
  {
    hide FirstSettler, FirstFix, Inside, Layings;
    forall k | 1 < k < |p| ensures FirstSettler(ms, p[..k]) == FirstSettler(Inside(ev), p[1..][..k - 1]) {
      FixesAreSettlers(ms, p[..k]);
      assert p[..k][..1] == p[..1] && p[..k][1..] == p[1..][..k - 1];
      FixesInside(ev, p[..k]);
    }
    if Covered(ms, p) {
      var k :| 0 < k < |p| && FirstSettler(ms, p[..k]).Some?;
      assert FirstSettler(Inside(ev), p[1..][..k - 1]).Some?;
    }
    if Covered(Inside(ev), p[1..]) {
      var k :| 0 < k < |p[1..]| && FirstSettler(Inside(ev), p[1..][..k]).Some?;
      assert FirstSettler(ms, p[..k + 1]).Some?;
    }
  }

  /** Module `j` takes over a directory above `p`. */
  ghost predicate TakesAway(m: Source, p: seq<string>) {
    exists k :: 0 < k < |p| && ModuleSettles(m, p[..k])
  }

  /**
   * What an earlier module has laid stays exactly when no later module takes over a directory above it: with a replace
   * marker of its own, or with a file of that name.
   */
  lemma KeptExactly(t: Node, ms: seq<Source>, i: nat, p: seq<string>, s: string)
    requires NamesMatch(t) && t.children == map[] && p != [] && i <= |ms| && Has(CollectAll(t, ms[..i]), p, s)
    ensures Has(CollectAll(t, ms), p, s) <==> forall j :: i <= j < |ms| ==> !TakesAway(ms[j], p)
    ensures !Has(CollectAll(t, ms), p, s) ==> At(CollectAll(t, ms), p).None?
  {
    hide *;
    FileAt(t, ms[..i], p);
    FileAt(t, ms, p);
    StillFirst(ms, i, p, s);
    CoveredBy(ms, i, p);
  }

  lemma StillFirst(ms: seq<Source>, i: nat, p: seq<string>, s: string)
    requires p != [] && i <= |ms| && FirstSettler(ms[..i], p) == Some(s)
    ensures FirstSettler(ms, p) == Some(s)
  {
    hide ModuleSettles, FirstSettler;
    assert SettledFirst(ms[..i], p, s);
    var x :| 0 <= x < i && SettlesAt(ms[..i], p, x) && ms[..i][x].name == s;
    forall k | 0 <= k < x ensures !ModuleSettles(ms[k], p) { assert ms[..i][k] == ms[k]; }
    assert SettlesAt(ms, p, x);
  }

  lemma CoveredBy(ms: seq<Source>, i: nat, p: seq<string>)
    requires i <= |ms| && !Covered(ms[..i], p)
    ensures Covered(ms, p) <==> exists j :: i <= j < |ms| && TakesAway(ms[j], p)
  {
    hide ModuleSettles;
    if Covered(ms, p) {
      var k :| 0 < k < |p| && FirstSettler(ms, p[..k]).Some?;
      assert FirstSettler(ms[..i], p[..k]).None?;
      var j :| 0 <= j < |ms| && ModuleSettles(ms[j], p[..k]);
      assert forall x :: 0 <= x < i ==> ms[..i][x] == ms[x] && !ModuleSettles(ms[..i][x], p[..k]);
      assert TakesAway(ms[j], p);
    }
    if j :| i <= j < |ms| && TakesAway(ms[j], p) {
      var k :| 0 < k < |p| && ModuleSettles(ms[j], p[..k]);
      assert FirstSettler(ms, p[..k]).Some?;
    }
  }

  /** A file `d/f` of module A, and an entry `d` of module B that is a file or holds a replace marker. */
  lemma LaterTakesAway(e: Entry)
    requires e.name == "d" && TakesOver(e)
    ensures var t := Bare("system", Dir, Root, "");
            var a := Source("A", true, [Entry("d", Dir, true, [Entry("f", Reg, false, [])])]);
            var b := Source("B", true, [e]);
            && Has(CollectAll(t, [a]), ["d", "f"], "A")
            && Has(CollectAll(t, [a, b]), ["d"], "B") && At(CollectAll(t, [a, b]), ["d", "f"]).None?
  {
    var (t, p) := (Bare("system", Dir, Root, ""), ["d", "f"]);
    var a := Source("A", true, [Entry("d", Dir, true, [Entry("f", Reg, false, [])])]);
    var b := Source("B", true, [e]);
    OneEntry(a.listing[0], p);
    OneEntry(a.listing[0].listing[0], ["f"]);
    OneEntry(a.listing[0], ["d"]);
    OneEntry(e, ["d"]);
    assert p[..1] == ["d"] && p[1..] == ["f"];
    assert ModuleSettles(a, p) && !ModuleSettles(a, ["d"]) && ModuleSettles(b, ["d"]);
    hide *;
    FileAt(t, [a], p);
    FileAt(t, [a, b], p);
    FileAt(t, [a, b], ["d"]);
    Settlers(a, b, p);
    Settlers(a, b, ["d"]);
    CoveredShort([a], p);
    CoveredShort([a, b], p);
    CoveredShort([a, b], ["d"]);
  }

  lemma Settlers(a: Source, b: Source, p: seq<string>)
    requires p != []
    ensures FirstSettler([a], p) == if ModuleSettles(a, p) then Some(a.name) else None
    ensures FirstSettler([a, b], p)
            == if ModuleSettles(a, p) then Some(a.name) else if ModuleSettles(b, p) then Some(b.name) else None
  {
    hide ModuleSettles;
    assert [a, b][..1] == [a] && [a][..0] == [];
  }

  lemma CoveredShort(ms: seq<Source>, p: seq<string>)
    requires 1 <= |p| <= 2
    ensures Covered(ms, p) <==> |p| == 2 && FirstSettler(ms, p[..1]).Some?
  {
  }

  lemma OneEntry(e: Entry, p: seq<string>)
    requires p != [] && e.name == p[0] && e.name != ".replace"
    ensures Settles([e], p) <==> Fixes(e, p)
    ensures !Replaces([e])
  {
    hide Fixes;
    assert [e][..1] == [e];
    assert Reached([e], 0);
  }

  /**
   * `bin` is taken for an intermediate directory that it is not exactly when a module brings it as a file or as a
   * replaced directory, in a listing that no replace marker stops before.
   */
  lemma WrongBin(fs: FileSystem, modules: seq<Source>, sbin: bool, applets: seq<string>)
    ensures Assembled(fs, modules, sbin, applets).Wrong? <==>
            !sbin && exists i, j :: 0 <= i < |modules| && 0 <= j < |modules[i].listing| && BringsBin(modules[i], j)
  {
    var t := Bare("system", Dir, Root, "");
    var r := CollectAll(t, modules);
    FileAt(t, modules, ["bin"]);
    hide CollectAll, FirstSettler, Replaces;
    assert !Covered(modules, ["bin"]);
    if FirstSettler(modules, ["bin"]).Some? {
      assert Has(r, ["bin"], FirstSettler(modules, ["bin"]).value);
      var i :| 0 <= i < |modules| && ModuleSettles(modules[i], ["bin"]);
      var j :| 0 <= j < |modules[i].listing| && Reached(modules[i].listing, j) && modules[i].listing[j].name == "bin"
        && Fixes(modules[i].listing[j], ["bin"]);
      assert BringsBin(modules[i], j);
    } else {
      forall i, j | 0 <= i < |modules| && 0 <= j < |modules[i].listing| ensures !BringsBin(modules[i], j) {
        assert !ModuleSettles(modules[i], ["bin"]);
      }
      ModuleHas(r, "bin");
    }
  }

  lemma ModuleHas(r: Node, n: string)
    ensures n in r.children && r.children[n].kind.Module? ==> Has(r, [n], r.children[n].source)
  {
  }

  /** The `j`-th entry of a module's `system` is collected, is named `bin`, and is no directory to add to. */
  predicate BringsBin(m: Source, j: int)
    requires 0 <= j < |m.listing|
  {
    m.opens && Reached(m.listing, j) && m.listing[j].name == "bin" && TakesOver(m.listing[j])
  }

  // ------------------------------------------------------------ mounting

  /**
   * The module whose files show at a path once a prepared tree is mounted: a module node serves everything below it.
   */
  ghost function Provider(a: Node, p: seq<string>): (r: Option<string>)
    requires p != []
    decreases |p|
  {
    if p[0] !in a.children then None
    else
      var c := a.children[p[0]];
      if c.kind.Module? then Some(c.source) else if |p| == 1 then None else Provider(c, p[1..])
  }

  /**
   * The same, read off the tree before it is prepared. A child that needs a skeleton is dropped right below a root; an
   * intermediate directory that needs one becomes a module node, of the module that it came with first.
   */
  ghost function Planned(fs: FileSystem, path: string, n: Node, p: seq<string>): (r: Option<string>)
    requires p != []
    decreases |p|
  {
    if p[0] !in n.children then None
    else
      var (c, q) := (n.children[p[0]], Under(path, p[0]));
      if Dropped(fs, q, n.kind, c) then None
      else if c.kind.Module? || Yields(fs, q, c) then Some(c.source)
      else if |p| == 1 then None else Planned(fs, q, c, p[1..])
  }

  predicate Yields(fs: FileSystem, path: string, c: Node) {
    c.kind.Inter? && NeedsSkeleton(fs, path, c)
  }

  lemma {:induction false} ProviderPlanned(fs: FileSystem, path: string, n: Node, a: Node, hosted: bool,
      p: seq<string>)
    requires Loaded(n) && After(fs, path, n, a, hosted) && !a.kind.Module? && p != [] && At(n, p).Some?
    ensures Provider(a, p) == Planned(fs, path, n, p)
    decreases |p|
  {
    var (k, c, q) := (p[0], n.children[p[0]], Under(path, p[0]));
    assert k in a.children <==> Remains(fs, path, n, a, k);
    DroppedIs(fs, path, n.kind, c, k);
    hide NeedsSkeleton, Dropped, Unmountable, Under;
    if !Dropped(fs, q, n.kind, c) {
      var d := a.children[k];
      var below := a.kind.Skel? && fs.mirror(path).Some?;
      assert After(fs, q, c, d, below) && d.kind == FinalKind(fs, q, c, below);
      if |p| > 1 && !d.kind.Module? {
        ProviderPlanned(fs, q, c, d, below, p[1..]);
      }
    }
  }

  /** Every file is served by its own module, and none is dropped. */
  ghost predicate AllServed(n: Node, a: Node) {
    forall p: seq<string>, s :: Served(n, a, p, s)
  }

  ghost predicate Served(n: Node, a: Node, p: seq<string>, s: string) {
    p != [] && Has(n, p, s) ==> Provider(a, p) == Some(s)
  }

  ghost predicate AllPlanned(fs: FileSystem, path: string, n: Node) {
    forall p: seq<string>, s :: PlannedFor(fs, path, n, p, s)
  }

  ghost predicate PlannedFor(fs: FileSystem, path: string, n: Node, p: seq<string>, s: string) {
    p != [] && Has(n, p, s) ==> Planned(fs, path, n, p) == Some(s)
  }

  /** Of the files at and below `c` none is another module's. */
  ghost predicate OnlyFrom(c: Node, s: string) {
    (c.kind.Module? ==> c.source == s) && forall p: seq<string>, x :: p != [] && Has(c, p, x) ==> x == s
  }

  ghost predicate NoFiles(c: Node) {
    !c.kind.Module? && forall p: seq<string>, x :: p != [] ==> !Has(c, p, x)
  }

  /**
   * No file is right below a root where it needs a skeleton, nor below such a directory; and no directory that becomes
   * a module node has files of another module.
   */
  ghost predicate Undivided(fs: FileSystem, path: string, n: Node)
    decreases n
  {
    forall k :: k in n.children ==>
      var (c, q) := (n.children[k], Under(path, k));
      if Dropped(fs, q, n.kind, c) then NoFiles(c)
      else if Yields(fs, q, c) then OnlyFrom(c, c.source)
      else c.kind.Module? || Undivided(fs, q, c)
  }

  lemma HasUnder(fs: FileSystem, path: string, n: Node, k: string, p: seq<string>, s: string)
    requires k in n.children && p != []
    ensures Has(n, [k] + p, s) <==> Has(n.children[k], p, s)
    ensures var (c, q) := (n.children[k], Under(path, k));
            !Dropped(fs, q, n.kind, c) && !c.kind.Module? && !Yields(fs, q, c) ==>
              Planned(fs, path, n, [k] + p) == Planned(fs, q, c, p)
  {
    assert ([k] + p)[1..] == p;
  }

  lemma {:induction false} UndividedServes(fs: FileSystem, path: string, n: Node, p: seq<string>, s: string)
    requires Loaded(n) && Undivided(fs, path, n)
    ensures PlannedFor(fs, path, n, p, s)
    decreases |p|
  {
    if p != [] && Has(n, p, s) {
      var (c, q) := (n.children[p[0]], Under(path, p[0]));
      assert |p| > 1 ==> At(n, p) == At(c, p[1..]) && c.children != map[];
      assert Loaded(c);
      if |p| > 1 {
        assert Has(c, p[1..], s);
        if !Dropped(fs, q, n.kind, c) && !Yields(fs, q, c) {
          UndividedServes(fs, q, c, p[1..], s);
        }
      }
    }
  }

  /** What follows for a child when every file is served by its own module. */
  lemma ChildUndivided(fs: FileSystem, path: string, n: Node, k: string)
    requires Loaded(n) && k in n.children && AllPlanned(fs, path, n)
    ensures var (c, q) := (n.children[k], Under(path, k));
            if Dropped(fs, q, n.kind, c) then NoFiles(c)
            else if Yields(fs, q, c) then OnlyFrom(c, c.source)
            else c.kind.Module? || AllPlanned(fs, q, c)
  {
    var (c, q) := (n.children[k], Under(path, k));
    assert PlannedFor(fs, path, n, [k], c.source);
    forall p: seq<string>, s | p != [] ensures Has(n, [k] + p, s) <==> Has(c, p, s)
      ensures Has(c, p, s) ==> Planned(fs, path, n, [k] + p) == Some(s)
    {
      HasUnder(fs, path, n, k, p, s);
      assert PlannedFor(fs, path, n, [k] + p, s);
    }
    if !Dropped(fs, q, n.kind, c) && !Yields(fs, q, c) && !c.kind.Module? {
      forall p: seq<string>, s ensures PlannedFor(fs, q, c, p, s) {
        if p != [] { HasUnder(fs, path, n, k, p, s); }
      }
    }
  }

  lemma {:induction false} UndividedIff(fs: FileSystem, path: string, n: Node)
    requires Loaded(n)
    ensures AllPlanned(fs, path, n) <==> Undivided(fs, path, n)
    decreases n
  {
    forall k | k in n.children
      ensures AllPlanned(fs, Under(path, k), n.children[k]) <==> Undivided(fs, Under(path, k), n.children[k])
    {
      UndividedIff(fs, Under(path, k), n.children[k]);
    }
    if Undivided(fs, path, n) {
      forall p: seq<string>, s ensures PlannedFor(fs, path, n, p, s) { UndividedServes(fs, path, n, p, s); }
    }
    if AllPlanned(fs, path, n) {
      forall k | k in n.children
        ensures var (c, q) := (n.children[k], Under(path, k));
                if Dropped(fs, q, n.kind, c) then NoFiles(c)
                else if Yields(fs, q, c) then OnlyFrom(c, c.source)
                else c.kind.Module? || Undivided(fs, q, c)
      {
        ChildUndivided(fs, path, n, k);
      }
    }
  }

  /**
   * Every file that modules laid is served by its own module exactly when no directory that becomes a module node has
   * files of another one, and nothing is dropped.
   */
  lemma FilesMounted(fs: FileSystem, path: string, n: Node)
    requires Loaded(n) && NamesMatch(n) && n.kind.Root?
    ensures AllServed(n, Prepared(fs, path, n)) <==> Undivided(fs, path, n)
  {
    hide *;
    var a := Prepared(fs, path, n);
    RootPrepared(fs, path, n);
    StaysRoot(fs, path, n, a);
    UndividedIff(fs, path, n);
    ServedIff(fs, path, n, a);
  }

  lemma StaysRoot(fs: FileSystem, path: string, n: Node, a: Node)
    requires n.kind.Root? && After(fs, path, n, a, false)
    ensures a.kind.Root? && !a.kind.Module?
  {
  }

  lemma ServedIff(fs: FileSystem, path: string, n: Node, a: Node)
    requires Loaded(n) && After(fs, path, n, a, false) && !a.kind.Module?
    ensures AllServed(n, a) <==> AllPlanned(fs, path, n)
  {
    forall p: seq<string>, s ensures Served(n, a, p, s) <==> PlannedFor(fs, path, n, p, s) {
      if p != [] && Has(n, p, s) {
        hide Provider, Planned, At, After;
        ProviderPlanned(fs, path, n, a, false, p);
      }
    }
  }

  /**
   * Modules A and B put a file each into a directory `d` that is not there yet: B's file is hidden, for `d` becomes a
   * module node of A.
   */
  lemma SecondModuleHidden(fs: FileSystem, path: string, source: string)
    requires fs.lstat(Under(path, "d")).None?
    ensures var n := CollectAll(Bare("n", Dir, Inter, source), TwoInD());
            && Has(n, ["d", "f"], "A") && Has(n, ["d", "g"], "B")
            && Provider(Prepared(fs, path, n), ["d", "g"]) == Some("A")
  {
    var t := Bare("n", Dir, Inter, source);
    assert NamesMatch(t) && t.kind.Inter? && t.children == map[];
    hide *;
    TwoLaid(t);
    NewDirectory(fs, path, CollectAll(t, TwoInD()), "d", "g");
  }

  /** What is below an intermediate directory that is not there yet comes from the directory's own module. */
  lemma NewDirectory(fs: FileSystem, path: string, n: Node, d: string, g: string)
    requires NamesMatch(n) && n.kind.Inter? && d in n.children && n.children[d].kind.Inter?
    requires fs.lstat(Under(path, d)).None?
    ensures Provider(Prepared(fs, path, n), [d, g]) == Some(n.children[d].source)
  {
    assert NamesMatch(n.children[d]) && !Dropped(fs, Under(path, d), n.kind, n.children[d]);
    var c := n.children[d];
    assert Prepared(fs, path, n).children[d] == ToModule(Seen(fs, Under(path, d), c), c.source);
  }

  function TwoInD(): (ms: seq<Source>)
    ensures |ms| == 2
  {
    [Source("A", true, [Entry("d", Dir, true, [Entry("f", Reg, false, [])])]),
     Source("B", true, [Entry("d", Dir, true, [Entry("g", Reg, false, [])])])]
  }

  lemma TwoLaid(t: Node)
    requires NamesMatch(t) && t.children == map[]
    ensures var n := CollectAll(t, TwoInD());
            && Has(n, ["d", "f"], "A") && Has(n, ["d", "g"], "B")
            && "d" in n.children && n.children["d"].kind.Inter? && n.children["d"].source == "A"
  {
    hide *;
    var ms := TwoInD();
    FirstLaying(ms);
    var (a, b) := (ms[0], ms[1]);
    TwoSettle();
    FileAt(t, ms, ["d", "f"]);
    FileAt(t, ms, ["d", "g"]);
    Settlers(a, b, ["d"]);
    Settlers(a, b, ["d", "f"]);
    Settlers(a, b, ["d", "g"]);
    CoveredShort(ms, ["d", "f"]);
    CoveredShort(ms, ["d", "g"]);
    assert ["d", "f"][..1] == ["d"] == ["d", "g"][..1] && ms == [a, b];
    AllOutcome(t, ms, "d");
    FixesAreSettlers(ms, ["d"]);
    DirectoryThere(Layings(ms, "d"), CollectAll(t, ms));
  }

  lemma DirectoryThere(ev: seq<Laying>, r: Node)
    requires Outcome(ev, "d", Lookup(r.children, "d")) && ev != [] && FirstFix(ev, ["d"]).None?
    ensures "d" in r.children && r.children["d"].kind.Inter? && r.children["d"].source == ev[0].source
  {
  }

  lemma FirstLaying(ms: seq<Source>)
    requires ms == TwoInD()
    ensures Layings(ms, "d") != [] && Layings(ms, "d")[0].source == "A"
    ensures |ms| == 2 && ms[0].name == "A" && ms[1].name == "B"
  {
    var (a, b) := (ms[0].listing[0], ms[1].listing[0]);
    OneEntry(a, ["d"]);
    OneEntry(b, ["d"]);
    assert ms[..1][..0] == [] && [a][..0] == [] && [b][..0] == [];
    assert LayingsOf([a], "d", "A") == [] + [Laying(a, "A")];
  }

  lemma TwoSettle()
    ensures var (a, b) := (TwoInD()[0], TwoInD()[1]);
            && !ModuleSettles(a, ["d"]) && !ModuleSettles(b, ["d"]) && ModuleSettles(a, ["d", "f"])
            && !ModuleSettles(a, ["d", "g"]) && ModuleSettles(b, ["d", "g"])
  {
    var (a, b) := (TwoInD()[0].listing[0], TwoInD()[1].listing[0]);
    OneEntry(a.listing[0], ["f"]);
    OneEntry(b.listing[0], ["g"]);
    OneEntry(a, ["d"]);
    OneEntry(b, ["d"]);
    OneEntry(a, ["d", "f"]);
    OneEntry(a, ["d", "g"]);
    OneEntry(b, ["d", "g"]);
    hide Settles, Replaces;
    assert ["d", "f"][1..] == ["f"] && ["d", "g"][1..] == ["g"];
    NotSettled(a.listing[0], ["g"]);
  }

  lemma NotSettled(e: Entry, p: seq<string>)
    requires p != [] && e.name != p[0]
    ensures !Settles([e], p)
  {
  }
}
