/**
 * The prepared tree path by path: with what kind each node ends, which marks it bears, and why. Places are told by
 * their full paths on the device.
 */
module OverlayKinds {
  import opened Base
  import opened Overlay
  import opened OverlayPaths

  /** A path of names as a string: every name after a slash. */
  ghost function PathOf(path: string, p: seq<string>): string
    decreases |p|
  {
    if p == [] then path else PathOf(path + "/" + p[0], p[1..])
  }

  /** The node that `p` leads to hangs right below one of kind `k`. */
  ghost predicate HangsUnder(a: Node, p: seq<string>, k: Kind)
    requires p != []
    decreases |p|
  {
    if |p| == 1 then a.kind == k else p[0] in a.children && HangsUnder(a.children[p[0]], p[1..], k)
  }

  /** It hangs right below a skeleton whose place can be listed. */
  ghost predicate Hosted(fs: FileSystem, path: string, a: Node, p: seq<string>)
    requires p != []
    decreases |p|
  {
    if |p| == 1 then a.kind.Skel? && fs.mirror(path).Some?
    else p[0] in a.children && Hosted(fs, path + "/" + p[0], a.children[p[0]], p[1..])
  }

  /** The directory holds something that cannot be mounted in its place. */
  ghost predicate HoldsNeedy(fs: FileSystem, path: string, n: Node) {
    exists k :: k in n.children && Unmountable(fs, path + "/" + k, n.children[k].fileType)
  }

  /**
   * The kind with which a loaded node ends that is there still. Only intermediate directories change: one that cannot
   * be mounted becomes its module's, one that holds such a thing, or hangs below a listed skeleton, becomes a
   * skeleton.
   */
  lemma {:induction false} KindAt(fs: FileSystem, path: string, n: Node, a: Node, hosted: bool, p: seq<string>)
    requires After(fs, path, n, a, hosted) && p != [] && At(n, p).Some? && At(a, p).Some?
    ensures var (l, q) := (At(n, p).value, PathOf(path, p));
            At(a, p).value.kind == (if !l.kind.Inter? then l.kind
                                    else if Unmountable(fs, q, l.fileType) then Module
                                    else if HoldsNeedy(fs, q, l) || Hosted(fs, path, a, p) then Skel
                                    else Inter)
    ensures At(a, p).value.fileType == At(n, p).value.fileType
    decreases |p|
  {
    var (k, below) := (p[0], a.kind.Skel? && fs.mirror(path).Some?);
    assert Under(path, k) == path + "/" + k;
    assert After(fs, path + "/" + k, n.children[k], a.children[k], below);
    if |p| > 1 {
      KindAt(fs, path + "/" + k, n.children[k], a.children[k], below, p[1..]);
    } else {
      assert PathOf(path, p) == path + "/" + k;
      assert HoldsNeedy(fs, path + "/" + k, n.children[k]) <==> NeedyChild(fs, path + "/" + k, n.children[k]);
    }
  }

  /**
   * A loaded node is there still: neither is it, or a directory above it, right below a root and cannot be mounted, nor
   * does it lie below a directory that becomes a module node.
   */
  ghost predicate Stays(fs: FileSystem, path: string, n: Node, p: seq<string>)
    requires p != []
    decreases |p|
  {
    && p[0] in n.children
    && var (c, q) := (n.children[p[0]], path + "/" + p[0]);
       && !(n.kind.Root? && Unmountable(fs, q, c.fileType))
       && (|p| == 1 || (!(c.kind.Inter? && Unmountable(fs, q, c.fileType)) && Stays(fs, q, c, p[1..])))
  }

  lemma {:induction false} StaysAt(fs: FileSystem, path: string, n: Node, a: Node, hosted: bool, p: seq<string>)
    requires Loaded(n) && After(fs, path, n, a, hosted) && !a.kind.Module? && p != [] && At(n, p).Some?
    ensures At(a, p).Some? <==> Stays(fs, path, n, p)
    decreases |p|
  {
    var (k, below) := (p[0], a.kind.Skel? && fs.mirror(path).Some?);
    var (c, q) := (n.children[k], path + "/" + k);
    assert Under(path, k) == q;
    assert k in a.children <==> Remains(fs, path, n, a, k);
    assert n.kind.Inter? || n.kind.Root?;
    if k in a.children {
      assert After(fs, q, c, a.children[k], below);
      if |p| > 1 {
        if a.children[k].kind.Module? {
          ModuleEmpty(fs, q, c, a.children[k], below);
        } else {
          StaysAt(fs, q, c, a.children[k], below, p[1..]);
        }
      }
    }
  }

  lemma ModuleEmpty(fs: FileSystem, path: string, n: Node, a: Node, hosted: bool)
    requires After(fs, path, n, a, hosted) && a.kind.Module?
    ensures a.children == map[]
  {
    forall k ensures k !in a.children { assert k in a.children <==> Remains(fs, path, n, a, k); }
  }

  /** Whatever stands in the prepared tree at a place where nothing can be mounted hangs right below a skeleton. */
  lemma {:induction false} NeedyHangs(fs: FileSystem, path: string, a: Node, p: seq<string>)
    requires WellHung(fs, path, a) && p != [] && At(a, p).Some?
    requires Unmountable(fs, PathOf(path, p), At(a, p).value.fileType)
    ensures HangsUnder(a, p, Skel)
    decreases |p|
  {
    if |p| > 1 {
      assert Under(path, p[0]) == path + "/" + p[0];
      NeedyHangs(fs, path + "/" + p[0], a.children[p[0]], p[1..]);
    } else {
      assert PathOf(path, p) == path + "/" + p[0];
    }
  }

  /** Names that were not laid are there as mirrors of what is there, right below listed skeletons only. */
  lemma {:induction false} OthersMirror(fs: FileSystem, path: string, n: Node, a: Node, hosted: bool, p: seq<string>)
    requires After(fs, path, n, a, hosted) && p != [] && At(a, p).Some? && At(n, p).None?
    ensures Hosted(fs, path, a, p) && MirrorOf(fs, PathOf(path, p[..|p| - 1]), p[|p| - 1], At(a, p).value)
    decreases |p|
  {
    hide *;
    var k, q := p[0], path + "/" + p[0];
    AtStep(a, p);
    AfterChild(fs, path, n, a, hosted, k);
    if |p| == 1 {
      AtStep(n, p);
      LastStep(fs, path, a, p);
    } else {
      ReachedLaid(fs, path, n, k, a.children[k], p[1..]);
      AtStep(n, p);
      OthersMirror(fs, q, n.children[k], a.children[k], a.kind.Skel? && fs.mirror(path).Some?, p[1..]);
      InnerStep(fs, path, a, p);
    }
  }

  lemma AtStep(n: Node, p: seq<string>)
    requires p != []
    ensures At(n, p).Some? ==> p[0] in n.children
    ensures p[0] in n.children ==>
              At(n, p) == if |p| == 1 then Some(n.children[p[0]]) else At(n.children[p[0]], p[1..])
  {
  }

  lemma LastStep(fs: FileSystem, path: string, a: Node, p: seq<string>)
    requires |p| == 1
    ensures PathOf(path, p[..|p| - 1]) == path && (Hosted(fs, path, a, p) <==> a.kind.Skel? && fs.mirror(path).Some?)
  {
    assert p[..0] == [];
  }

  lemma InnerStep(fs: FileSystem, path: string, a: Node, p: seq<string>)
    requires |p| > 1 && p[0] in a.children
    ensures PathOf(path, p[..|p| - 1]) == PathOf(path + "/" + p[0], p[1..][..|p[1..]| - 1])
    ensures p[1..][|p[1..]| - 1] == p[|p| - 1]
    ensures Hosted(fs, path, a, p) <==> Hosted(fs, path + "/" + p[0], a.children[p[0]], p[1..])
  {
    assert p[1..][..|p| - 2] == p[..|p| - 1][1..];
  }

  /** Below a mirror there is nothing. */
  lemma ReachedLaid(fs: FileSystem, path: string, n: Node, k: string, c: Node, p: seq<string>)
    requires (k !in n.children ==> MirrorOf(fs, path, k, c)) && p != [] && At(c, p).Some?
    ensures k in n.children
  {
  }

  lemma AfterChild(fs: FileSystem, path: string, n: Node, a: Node, hosted: bool, k: string)
    requires After(fs, path, n, a, hosted) && k in a.children
    ensures k in n.children ==>
              After(fs, path + "/" + k, n.children[k], a.children[k], a.kind.Skel? && fs.mirror(path).Some?)
    ensures k !in n.children ==> a.kind.Skel? && fs.mirror(path).Some? && MirrorOf(fs, path, k, a.children[k])
  {
    assert Under(path, k) == path + "/" + k && Remains(fs, path, n, a, k);
  }

  // ------------------------------------------------------------ the marks of what exists

  /** A skeleton bears the mark if its place can be listed, anything else that was loaded if its place exists. */
  ghost predicate MarkedAs(fs: FileSystem, path: string, n: Node, a: Node) {
    a.exist <==> if a.kind.Skel? then fs.mirror(path).Some? else n.exist || fs.lstat(path).Some?
  }

  ghost predicate AllMarked(fs: FileSystem, path: string, n: Node, a: Node)
    decreases n
  {
    forall k :: k in n.children && k in a.children && !a.children[k].kind.Mirror? ==>
      MarkedAs(fs, Under(path, k), n.children[k], a.children[k])
      && AllMarked(fs, Under(path, k), n.children[k], a.children[k])
  }

  lemma {:induction false} PreparedMarks(fs: FileSystem, path: string, n: Node)
    requires Loaded(n) && NamesMatch(n)
    ensures AllMarked(fs, path, n, Prepared(fs, path, n))
    decreases n, 0
  {
    var r := Prepared(fs, path, n);
    forall k | k in n.children && k in r.children && !r.children[k].kind.Mirror?
      ensures MarkedAs(fs, Under(path, k), n.children[k], r.children[k])
      ensures AllMarked(fs, Under(path, k), n.children[k], r.children[k])
    {
      var (c, q) := (n.children[k], Under(path, k));
      assert r.children[k] == Becomes(fs, q, c);
      BecomesMarked(fs, q, c);
    }
  }

  lemma {:induction false} BecomesMarked(fs: FileSystem, path: string, c: Node)
    requires Loaded(c) && NamesMatch(c)
    ensures MarkedAs(fs, path, c, Becomes(fs, path, c)) && AllMarked(fs, path, c, Becomes(fs, path, c))
    decreases c, 1
  {
    if c.children != map[] {
      PreparedMarks(fs, path, c);
      var d := Seen(fs, path, Prepared(fs, path, c));
      if !(NeedsSkeleton(fs, path, c) && c.kind.Inter?) && !CanStay(fs, path, c) && c.kind.Inter? {
        SkeletonMarks(fs, path, c, d);
      }
    }
  }

  lemma {:induction false} SkeletonMarks(fs: FileSystem, path: string, n: Node, d: Node)
    requires NamesMatch(d) && AllMarked(fs, path, n, d)
    ensures AllMarked(fs, path, n, Skeleton(fs, path, d)) && MarkedAs(fs, path, n, Skeleton(fs, path, d))
    decreases n
  {
    var a := Skeleton(fs, path, d);
    assert MarkedAs(fs, path, n, a);
    forall k | k in n.children && k in a.children && !a.children[k].kind.Mirror?
      ensures MarkedAs(fs, Under(path, k), n.children[k], a.children[k])
      ensures AllMarked(fs, Under(path, k), n.children[k], a.children[k])
    {
      SkeletonChild(fs, path, d, k);
      if d.children[k].kind.Inter? {
        SkeletonMarks(fs, Under(path, k), n.children[k], d.children[k]);
      }
    }
  }

  lemma SkeletonChild(fs: FileSystem, path: string, d: Node, k: string)
    requires NamesMatch(d) && k in Skeleton(fs, path, d).children
    ensures var c := Skeleton(fs, path, d).children[k];
            if k in d.children && (fs.mirror(path).None? || !d.children[k].kind.Inter?) then c == d.children[k]
            else if k in d.children then c == Skeleton(fs, Under(path, k), d.children[k])
            else c.kind.Mirror?
  {
    match fs.mirror(path) {
      case None =>
      case Some(list) => var all := WithMirrors(d.children, list);
    }
  }

  /** A loaded node that is there still is marked by what is at its place. */
  lemma {:induction false} MarkAt(fs: FileSystem, path: string, n: Node, a: Node, hosted: bool, p: seq<string>)
    requires Loaded(n) && After(fs, path, n, a, hosted) && AllMarked(fs, path, n, a)
    requires p != [] && At(n, p).Some? && At(a, p).Some?
    ensures MarkedAs(fs, PathOf(path, p), At(n, p).value, At(a, p).value)
    decreases |p|
  {
    var below := a.kind.Skel? && fs.mirror(path).Some?;
    assert Under(path, p[0]) == path + "/" + p[0];
    assert After(fs, path + "/" + p[0], n.children[p[0]], a.children[p[0]], below);
    if |p| > 1 {
      MarkAt(fs, path + "/" + p[0], n.children[p[0]], a.children[p[0]], below, p[1..]);
    } else {
      assert PathOf(path, p) == path + "/" + p[0];
    }
  }

  /**
   * The prepared tree at any path: what was laid and stays has the kind, type and mark that its surroundings demand;
   * what was not laid mirrors what is there; and nothing that cannot be mounted in its place hangs anywhere but under
   * a skeleton.
   */
  lemma PreparedAt(fs: FileSystem, n: Node, p: seq<string>)
    requires Loaded(n) && NamesMatch(n) && n.kind.Root? && p != []
    ensures var (r, q) := (Prepared(fs, "", n), PathOf("", p));
            && (At(n, p).Some? ==> (At(r, p).Some? <==> Stays(fs, "", n, p)))
            && (At(n, p).Some? && At(r, p).Some? ==>
                  var (l, c) := (At(n, p).value, At(r, p).value);
                  && c.fileType == l.fileType && MarkedAs(fs, q, l, c)
                  && c.kind == (if !l.kind.Inter? then l.kind
                                else if Unmountable(fs, q, l.fileType) then Module
                                else if HoldsNeedy(fs, q, l) || Hosted(fs, "", r, p) then Skel
                                else Inter))
            && (At(n, p).None? && At(r, p).Some? ==>
                  Hosted(fs, "", r, p) && MirrorOf(fs, PathOf("", p[..|p| - 1]), p[|p| - 1], At(r, p).value))
            && (At(r, p).Some? && Unmountable(fs, q, At(r, p).value.fileType) ==> HangsUnder(r, p, Skel))
  {
    hide *;
    var r := Prepared(fs, "", n);
    RootPrepared(fs, "", n);
    StaysRoot(fs, "", n, r);
    PreparedMarks(fs, "", n);
    if At(n, p).Some? {
      StaysAt(fs, "", n, r, false, p);
      if At(r, p).Some? {
        KindAt(fs, "", n, r, false, p);
        MarkAt(fs, "", n, r, false, p);
      }
    } else if At(r, p).Some? {
      OthersMirror(fs, "", n, r, false, p);
    }
    if At(r, p).Some? && Unmountable(fs, PathOf("", p), At(r, p).value.fileType) { NeedyHangs(fs, "", r, p); }
  }

  // ------------------------------------------------------------ one file

  /** One module with one file, `system/bin/ls`. */
  ghost function OneFile(m: string): Source {
    Source(m, true, [Entry("bin", Dir, true, [Entry("ls", Reg, false, [])])])
  }

  ghost function LsNode(m: string): (n: Node)
    ensures Loaded(n) && NamesMatch(n)
  {
    Node("ls", Reg, false, Module, m, map[])
  }

  ghost function BinNode(m: string): (n: Node)
    ensures Loaded(n) && NamesMatch(n)
  {
    Node("bin", Dir, false, Inter, m, map["ls" := LsNode(m)])
  }

  ghost function SystemNode(m: string): (n: Node)
    ensures Loaded(n) && NamesMatch(n)
  {
    Node("system", Dir, false, Root, "", map["bin" := BinNode(m)])
  }

  ghost function TopNode(m: string): (n: Node)
    ensures Loaded(n) && NamesMatch(n)
  {
    Node("", Dir, false, Root, "", map["system" := SystemNode(m)])
  }

  lemma OneFileLaid(fs: FileSystem, m: string, applets: seq<string>)
    ensures Assembled(fs, [OneFile(m)], true, applets) == Tree(TopNode(m))
  {
    var (e, f) := (OneFile(m).listing[0], Entry("ls", Reg, false, []));
    var (t, b) := (Bare("system", Dir, Root, ""), Bare("bin", Dir, Inter, m));
    assert [OneFile(m)][..0] == [] && [e][..0] == [] && [f][..0] == [];
    assert !Replaces([f]) && !Replaces([e]);
    assert Collect(b, [f], m) == CollectEntry(b, f, m) == BinNode(m);
    assert Collect(t, [e], m) == CollectEntry(t, e, m) == SystemNode(m);
    assert CollectAll(t, [OneFile(m)]) == SystemNode(m);
    NoPartition(fs, TopNode(m), |PARTITIONS|);
  }

  lemma {:induction false} NoPartition(fs: FileSystem, root: Node, n: nat)
    requires n <= |PARTITIONS| && NamesMatch(root) && "system" in root.children
    requires forall i :: 0 <= i < |PARTITIONS| ==> PARTITIONS[i] !in root.children["system"].children
    ensures Partitioned(fs, root, n) == root
  {
    if n > 0 { NoPartition(fs, root, n - 1); }
  }

  /**
   * On a device with `/system/bin`: where `/system/bin/ls` is a symbolic link or missing, `bin` becomes a skeleton,
   * else it stays as it is; the file is there either way.
   */
  lemma LinkOnDevice(fs: FileSystem, m: string, applets: seq<string>)
    requires fs.lstat("/system") == Some(Dir) && fs.lstat("/system/bin") == Some(Dir)
    ensures var r := Prepared(fs, "", TopNode(m));
            && Assembled(fs, [OneFile(m)], true, applets) == Tree(TopNode(m))
            && At(r, ["system", "bin"]).Some? && At(r, ["system", "bin", "ls"]).Some?
            && (At(r, ["system", "bin"]).value.kind ==
                if fs.lstat("/system/bin/ls") in {None, Some(Lnk)} then Skel else Inter)
            && At(r, ["system", "bin", "ls"]).value.kind.Module? && Provider(r, ["system", "bin", "ls"]) == Some(m)
  {
    OneFileLaid(fs, m, applets);
    var (n, r) := (TopNode(m), Prepared(fs, "", TopNode(m)));
    var (p, q) := (["system", "bin"], ["system", "bin", "ls"]);
    OneFilePaths(m);
    OneFileStays(fs, m);
    RootPrepared(fs, "", n);
    hide *;
    StaysRoot(fs, "", n, r);
    StaysAt(fs, "", n, r, false, p);
    StaysAt(fs, "", n, r, false, q);
    OneFileKinds(fs, m, r);
  }

  lemma OneFileKinds(fs: FileSystem, m: string, r: Node)
    requires fs.lstat("/system") == Some(Dir) && fs.lstat("/system/bin") == Some(Dir)
    requires At(r, ["system", "bin"]).Some? && At(r, ["system", "bin", "ls"]).Some?
    requires After(fs, "", TopNode(m), r, false) && r.kind.Root?
    ensures At(r, ["system", "bin"]).value.kind ==
            if fs.lstat("/system/bin/ls") in {None, Some(Lnk)} then Skel else Inter
    ensures At(r, ["system", "bin", "ls"]).value.kind.Module?
    ensures Provider(r, ["system", "bin", "ls"]) == Some(m)
  {
    OneFileNames();
    assert ["system", "bin"][1..] == ["bin"];
    var s := r.children["system"];
    assert After(fs, "/system", SystemNode(m), s, false) && s.kind.Root?;
    var b := s.children["bin"];
    assert After(fs, "/system/bin", BinNode(m), b, false);
    var l := b.children["ls"];
    assert After(fs, "/system/bin/ls", LsNode(m), l, b.kind.Skel? && fs.mirror("/system/bin").Some?);
    assert l.kind.Module? && l.source == m;
    LsNeedy(fs, m);
  }

  lemma LsNeedy(fs: FileSystem, m: string)
    requires fs.lstat("/system/bin") == Some(Dir)
    ensures FinalKind(fs, "/system/bin", BinNode(m), false) ==
            if fs.lstat("/system/bin/ls") in {None, Some(Lnk)} then Skel else Inter
  {
    OneFileNames();
    var b := BinNode(m);
    assert NeedyChild(fs, "/system/bin", b) <==> Unmountable(fs, "/system/bin/ls", Reg) by {
      assert "ls" in b.children && b.children["ls"].fileType == Reg;
    }
  }

  lemma OneFileNames()
    ensures "" + "/" + "system" == "/system" == Under("", "system")
    ensures "/system" + "/" + "bin" == "/system/bin" == Under("/system", "bin")
    ensures "/system/bin" + "/" + "ls" == "/system/bin/ls" == Under("/system/bin", "ls")
    ensures ["system", "bin", "ls"][1..] == ["bin", "ls"] && ["bin", "ls"][1..] == ["ls"]
    ensures ["system", "bin"][1..] == ["bin"]
  {
  }

  lemma OneFileStays(fs: FileSystem, m: string)
    requires fs.lstat("/system") == Some(Dir) && fs.lstat("/system/bin") == Some(Dir)
    ensures Stays(fs, "", TopNode(m), ["system", "bin"]) && Stays(fs, "", TopNode(m), ["system", "bin", "ls"])
  {
    OneFileNames();
    var (n, s, b) := (TopNode(m), SystemNode(m), BinNode(m));
    assert n.children["system"] == s && s.children["bin"] == b;
    assert Stays(fs, "/system/bin", b, ["ls"]);
    assert !Unmountable(fs, "/system", Dir) && !Unmountable(fs, "/system/bin", Dir);
    assert Stays(fs, "/system", s, ["bin"]) && Stays(fs, "/system", s, ["bin", "ls"]);
  }

  lemma OneFilePaths(m: string)
    ensures At(TopNode(m), ["system", "bin"]) == Some(BinNode(m))
    ensures At(TopNode(m), ["system", "bin", "ls"]) == Some(LsNode(m))
  {
    OneFileNames();
    assert At(SystemNode(m), ["bin", "ls"]) == At(BinNode(m), ["ls"]);
  }
}
