/**
 * The tree of files that modules lay over the system: nodes of rising rank, built by walking module directories and
 * then prepared bottom-up, so that every place that cannot be bind-mounted directly hangs under a skeleton directory.
 */
module Overlay {
  import opened Base
  import opened Names

  datatype FileType = Dir | Lnk | Reg | Special

  datatype Kind = Mirror | Inter | Skel | Module | Root | Custom

  /** The bit that stands for a kind; a higher one takes precedence. */
  function Rank(k: Kind): (r: nat) {
    match k
    case Mirror => 1
    case Inter => 2
    case Skel => 4
    case Module => 8
    case Root => 16
    case Custom => 32
  }

  /** The kinds that may have children. */
  predicate IsDirKind(k: Kind) {
    k.Inter? || k.Skel? || k.Root?
  }

  /** `source` is the module a node comes from. */
  datatype Node = Node(name: string, fileType: FileType, exist: bool, kind: Kind, source: string,
      children: map<string, Node>)

  /** A directory entry; for a directory, whether it can be opened, and what is then found inside. */
  datatype Entry = Entry(name: string, fileType: FileType, opens: bool, listing: seq<Entry>)

  /** What `lstat` says of a path, and the listing of its mirror, if that can be opened. */
  datatype FileSystem = FileSystem(lstat: string -> Option<FileType>, mirror: string -> Option<seq<Entry>>)

  function Under(path: string, name: string): string {
    path + "/" + name
  }

  function Bare(name: string, fileType: FileType, kind: Kind, source: string): Node {
    Node(name, fileType, false, kind, source, map[])
  }

  // ------------------------------------------------------------ tree operations

  /** Node `a` takes the place of `b`: its name, file type and, where both are directories, its children. */
  function MergeNode(a: Node, b: Node): (r: Node)
    ensures r.kind == a.kind && r.source == a.source
  {
    a.(name := b.name, fileType := b.fileType, exist := b.exist,
       children := if IsDirKind(a.kind) && IsDirKind(b.kind) then b.children + a.children else a.children)
  }

  /** Every child is filed under its own name. */
  ghost predicate Keyed(children: map<string, Node>) {
    forall k :: k in children ==> children[k].name == k
  }

  ghost predicate NamesMatch(n: Node) {
    Keyed(n.children) && forall k :: k in n.children ==> NamesMatch(n.children[k])
  }

  /** `emplace` and `insert`: only a higher rank replaces a node that is there. */
  function Insert(children: map<string, Node>, node: Node): (r: Option<map<string, Node>>)
    requires Keyed(children)
    ensures r.None? <==> node.name in children && Rank(children[node.name].kind) >= Rank(node.kind)
    ensures r.Some? ==>
            Keyed(r.value) && r.value.Keys == children.Keys + {node.name} && r.value[node.name].kind == node.kind
    ensures r.Some? ==> forall k :: k in children && k != node.name ==> r.value[k] == children[k]
  {
    if node.name in children then
      var there := children[node.name];
      if Rank(there.kind) < Rank(node.kind) then
        var m := MergeNode(node, there);
        Some((children - {node.name})[m.name := m])
      else None
    else Some(children[node.name := node])
  }

  /** `emplace_or_get`: a node of the same rank that is already there will do. */
  function InsertOrGet(children: map<string, Node>, node: Node): (r: Option<map<string, Node>>)
    requires Keyed(children)
    ensures r.None? <==> node.name in children && Rank(children[node.name].kind) > Rank(node.kind)
    ensures r.Some? ==>
            Keyed(r.value) && r.value.Keys == children.Keys + {node.name} && r.value[node.name].kind == node.kind
    ensures r.Some? ==> forall k :: k in children && k != node.name ==> r.value[k] == children[k]
  {
    if node.name in children && Rank(children[node.name].kind) == Rank(node.kind) then Some(children)
        else Insert(children, node)
  }

  /** The module node made of an existing one. */
  function ToModule(n: Node, source: string): Node {
    MergeNode(Bare("", Reg, Module, source), n)
  }

  /** The partition root made of an existing node. */
  function ToRoot(n: Node): Node {
    MergeNode(Bare("", Dir, Root, ""), n)
  }

  // ------------------------------------------------------------ skeletons

  function WithMirrors(children: map<string, Node>, list: seq<Entry>): (r: map<string, Node>)
    requires Keyed(children)
    ensures Keyed(r)
    ensures forall k :: k in children ==> k in r && r[k] == children[k]
    ensures forall k :: k in r && k !in children ==> r[k].kind.Mirror? && r[k].name == k && r[k].children == map[]
  {
    if list == [] then children
    else
      var e := list[|list| - 1];
      var c := WithMirrors(children, list[..|list| - 1]);
      match Insert(c, Bare(e.name, e.fileType, Mirror, ""))
      case None => c
      case Some(c') => c'
  }

  /** A directory remade as skeleton: filled up from its mirror, and everything intermediate in it a skeleton too. */
  function Skeleton(fs: FileSystem, path: string, n: Node): (r: Node)
    requires NamesMatch(n)
    ensures r.kind.Skel? && r.name == n.name && r.fileType == n.fileType && NamesMatch(r)
    decreases n, 1
  {
    match fs.mirror(path)
    case None => n.(kind := Skel, exist := false, source := "")
    case Some(list) => n.(kind := Skel, exist := true, source := "", children := SkeletonChildren(fs, path, n, list))
  }

  function SkeletonChildren(fs: FileSystem, path: string, n: Node, list: seq<Entry>): (r: map<string, Node>)
    requires NamesMatch(n)
    ensures Keyed(r) && forall k :: k in r ==> NamesMatch(r[k])
    decreases n, 0
  {
    var all := WithMirrors(n.children, list);
    map k | k in all ::
      if k in n.children && n.children[k].kind.Inter? then Skeleton(fs, Under(path, k), n.children[k]) else all[k]
  }

  /** The constructor: one loop over the mirror listing, one over the children found then. */
  method MakeSkeleton(fs: FileSystem, path: string, n: Node) returns (r: Node)
    requires n.kind.Inter? && NamesMatch(n)
    ensures r == Skeleton(fs, path, n)
    decreases n, 1
  {
    r := MergeNode(Bare("", Dir, Skel, ""), n);
    assert n.children + map[] == n.children;
    match fs.mirror(path) {
      case None =>
        r := r.(exist := false);
      case Some(list) =>
        r := r.(exist := true);
        var children := FillUp(n.children, list);
        var remade := RemakeInter(fs, path, n, children);
        r := r.(children := remade);
        SkeletonIs(fs, path, n, list, remade);
    }
  }

  lemma SkeletonIs(fs: FileSystem, path: string, n: Node, list: seq<Entry>, remade: map<string, Node>)
    requires NamesMatch(n) && remade.Keys == WithMirrors(n.children, list).Keys
    requires forall k :: k in remade ==> remade[k] == Remade(fs, path, n, WithMirrors(n.children, list), k)
    ensures SkeletonChildren(fs, path, n, list) == remade
  {
    hide WithMirrors, Skeleton, NamesMatch, Keyed;
  }

  method RemakeInter(fs: FileSystem, path: string, n: Node, children: map<string, Node>) returns (r: map<string, Node>)
    requires NamesMatch(n) && n.children.Keys <= children.Keys
    requires forall k :: k in children ==> if k in n.children then children[k] == n.children[k]
             else children[k].kind.Mirror?
    ensures r.Keys == children.Keys && forall k :: k in r ==> r[k] == Remade(fs, path, n, children, k)
    decreases n, 0
  {
    r := children;
    var it := First(children.Keys);
    WalkStarts(children.Keys);
    WalkEnds(children.Keys);
    while it.Some?
      invariant r.Keys == children.Keys && (it.Some? ==> it.value in children)
      invariant forall k :: k in r ==> r[k] == if k in Ahead(children.Keys, it) then children[k]
                else Remade(fs, path, n, children, k)
      decreases Ahead(children.Keys, it)
    {
      var k := it.value;
      WalkSteps(children.Keys, k);
      if r[k].kind.Inter? {
        var s := MakeSkeleton(fs, Under(path, k), n.children[k]);
        r := r[k := s];
      }
      it := Next(children.Keys, k);
    }
  }

  ghost function Remade(fs: FileSystem, path: string, n: Node, children: map<string, Node>, k: string): Node
    requires k in children && NamesMatch(n)
  {
    if k in n.children && n.children[k].kind.Inter? then Skeleton(fs, Under(path, k), n.children[k]) else children[k]
  }

  method FillUp(children: map<string, Node>, list: seq<Entry>) returns (r: map<string, Node>)
    requires Keyed(children)
    ensures r == WithMirrors(children, list)
  {
    r := children;
    for i := 0 to |list|
      invariant r == WithMirrors(children, list[..i])
    {
      assert list[..i + 1][..i] == list[..i];
      match Insert(r, Bare(list[i].name, list[i].fileType, Mirror, "")) {
        case None =>
        case Some(c) => r := c;
      }
    }
    assert list[..|list|] == list;
  }

  // ------------------------------------------------------------ prepare

  /** The place is missing, or what goes there or what is there is a symbolic link. */
  predicate NeedsSkeleton(fs: FileSystem, path: string, child: Node) {
    match fs.lstat(path)
    case None => true
    case Some(there) => child.fileType.Lnk? || there.Lnk?
  }

  /** A child that needs a skeleton is dropped where its parent cannot become one. */
  predicate Dropped(fs: FileSystem, path: string, kind: Kind, child: Node) {
    Rank(kind) > Rank(Skel) && NeedsSkeleton(fs, path, child)
  }

  /** The mark that something is there already. */
  function Seen(fs: FileSystem, path: string, n: Node): Node {
    n.(exist := n.exist || fs.lstat(path).Some?)
  }

  /** Whether a directory may stay as it is, or its parent has to make a skeleton of it. */
  predicate CanStay(fs: FileSystem, path: string, n: Node) {
    Rank(n.kind) > Rank(Skel) || forall k | k in n.children :: !NeedsSkeleton(fs, Under(path, k), n.children[k])
  }

  /** What `dir_node::prepare` makes of a directory. */
  function Prepared(fs: FileSystem, path: string, n: Node): (r: Node)
    requires NamesMatch(n)
    ensures r == n.(children := r.children) && NamesMatch(r)
    decreases n
  {
    n.(children := map k | k in n.children && !Dropped(fs, Under(path, k), n.kind, n.children[k]) ::
                     var (c, p) := (n.children[k], Under(path, k));
                     Settled(fs, p, c, if IsDirKind(c.kind) && c.fileType.Dir? then Prepared(fs, p, c) else c))
  }

  /** What becomes of child `c` that has been prepared as `d`. */
  function Settled(fs: FileSystem, path: string, c: Node, d: Node): (r: Node)
    requires NamesMatch(c) && NamesMatch(d) && d == c.(children := d.children)
    ensures r.name == c.name && r.fileType == c.fileType && NamesMatch(r)
  {
    if NeedsSkeleton(fs, path, c) && c.kind.Inter? then ToModule(Seen(fs, path, c), c.source)
    else if CanStay(fs, path, c) || !c.kind.Inter? || !c.fileType.Dir? then Seen(fs, path, d)
    else Skeleton(fs, path, Seen(fs, path, d))
  }

  /** Trees as the modules' files and the partitions give them. */
  ghost predicate Loaded(n: Node) {
    && (n.kind.Inter? || n.kind.Module? || n.kind.Root? || n.kind.Custom?) && Keyed(n.children)
    && (n.kind.Inter? ==> n.fileType.Dir?) && (n.children != map[] ==> IsDirKind(n.kind) && n.fileType.Dir?)
    && forall k :: k in n.children ==> (n.children[k].kind.Root? ==> n.kind.Root?) && Loaded(n.children[k])
  }

  /** One child in the loop of `prepare`; a result of None drops it. */
  method PrepareChild(fs: FileSystem, path: string, kind: Kind, c: Node) returns (r: Option<Node>, toSkel: bool)
    requires Loaded(c) && NamesMatch(c)
    ensures r == if Dropped(fs, path, kind, c) then None else Some(Becomes(fs, path, c))
    ensures toSkel == (Rank(kind) <= Rank(Skel) && NeedsSkeleton(fs, path, c))
    decreases c, 1
  {
    toSkel := false;
    var child := Seen(fs, path, c);
    if NeedsSkeleton(fs, path, c) {
      if Rank(kind) > Rank(Skel) { return None, false; }
      toSkel := true;
      if c.kind.Inter? { return Some(ToModule(child, c.source)), true; }
    }
    if IsDirKind(c.kind) && c.fileType.Dir? {
      var d, ok := Prepare(fs, path, c);
      child := child.(children := d.children);
      assert child == Seen(fs, path, d);
      if !ok {
        child := MakeSkeleton(fs, path, child);
      }
    }
    r := Some(child);
  }

  ghost function Becomes(fs: FileSystem, path: string, c: Node): Node
    requires NamesMatch(c)
  {
    Settled(fs, path, c, if IsDirKind(c.kind) && c.fileType.Dir? then Prepared(fs, path, c) else c)
  }

  /** The walk of `prepare`: the children behind it are settled or dropped, those ahead as they were. */
  ghost predicate HalfPrepared(fs: FileSystem, path: string, n: Node, children: map<string, Node>, ahead: set<string>)
    requires NamesMatch(n)
  {
    && children.Keys <= n.children.Keys && ahead <= n.children.Keys
    && forall k :: k in n.children ==> ChildPrepared(fs, path, n, children, ahead, k)
  }

  ghost predicate ChildPrepared(fs: FileSystem, path: string, n: Node, children: map<string, Node>, ahead: set<string>,
      k: string)
    requires NamesMatch(n) && k in n.children
  {
    if k in ahead then k in children && children[k] == n.children[k]
    else if Dropped(fs, Under(path, k), n.kind, n.children[k]) then k !in children
    else k in children && children[k] == Becomes(fs, Under(path, k), n.children[k])
  }

  lemma ChildStep(fs: FileSystem, path: string, n: Node, children: map<string, Node>, ahead: set<string>, k: string,
      c: Option<Node>)
    requires NamesMatch(n) && HalfPrepared(fs, path, n, children, ahead) && k in ahead
    requires c == if Dropped(fs, Under(path, k), n.kind, n.children[k]) then None
             else Some(Becomes(fs, Under(path, k), n.children[k]))
    ensures HalfPrepared(fs, path, n, if c.Some? then children[k := c.value] else children - {k}, ahead - {k})
  {
    hide Becomes, Dropped, NamesMatch, Under;
    var children' := if c.Some? then children[k := c.value] else children - {k};
    forall x | x in n.children ensures ChildPrepared(fs, path, n, children', ahead - {k}, x) {
      assert ChildPrepared(fs, path, n, children, ahead, x);
    }
  }

  lemma AllPrepared(fs: FileSystem, path: string, n: Node, children: map<string, Node>)
    requires NamesMatch(n) && HalfPrepared(fs, path, n, children, {})
    ensures children == Prepared(fs, path, n).children
  {
    var want := Prepared(fs, path, n).children;
    hide Settled, Dropped, NamesMatch, Under, NeedsSkeleton;
    forall x | x in n.children ensures x in children <==> x in want {
      assert ChildPrepared(fs, path, n, children, {}, x);
    }
    forall x | x in children ensures children[x] == want[x] {
      assert ChildPrepared(fs, path, n, children, {}, x);
    }
  }

  /** `dir_node::prepare`, a walk over the children that erases and replaces them; false asks for a skeleton. */
  method Prepare(fs: FileSystem, path: string, n: Node) returns (r: Node, ok: bool)
    requires Loaded(n) && NamesMatch(n)
    ensures r == Prepared(fs, path, n) && ok == CanStay(fs, path, n)
    decreases n, 0
  {
    var toSkel := false;
    var keys := n.children.Keys;
    var children := n.children;
    var it := First(keys);
    WalkStarts(keys);
    WalkEnds(keys);
    while it.Some?
      invariant it.Some? ==> it.value in keys
      invariant HalfPrepared(fs, path, n, children, Ahead(keys, it))
      invariant toSkel <==> Rank(n.kind) <= Rank(Skel) && exists k ::
                k in keys && k !in Ahead(keys, it) && NeedsSkeleton(fs, Under(path, k), n.children[k])
      decreases Ahead(keys, it)
    {
      hide HalfPrepared, Loaded, NamesMatch, Becomes, NeedsSkeleton, Dropped, Under, Rank;
      var k := it.value;
      WalkSteps(keys, k);
      ChildAhead(fs, path, n, children, Ahead(keys, it), k);
      ChildOf(n, k);
      var c, up := PrepareChild(fs, Under(path, k), n.kind, children[k]);
      ChildStep(fs, path, n, children, Ahead(keys, it), k, c);
      children := if c.Some? then children[k := c.value] else children - {k};
      toSkel := toSkel || up;
      it := Next(keys, k);
    }
    AllPrepared(fs, path, n, children);
    r, ok := n.(children := children), !toSkel;
  }

  lemma ChildAhead(fs: FileSystem, path: string, n: Node, children: map<string, Node>, ahead: set<string>, k: string)
    requires NamesMatch(n) && HalfPrepared(fs, path, n, children, ahead) && k in ahead
    ensures k in n.children && k in children && children[k] == n.children[k]
  {
    assert k in n.children;
    assert ChildPrepared(fs, path, n, children, ahead, k);
  }

  lemma ChildOf(n: Node, k: string)
    requires Loaded(n) && NamesMatch(n) && k in n.children
    ensures Loaded(n.children[k]) && NamesMatch(n.children[k])
  {
  }

  // ------------------------------------------------------------ what preparing a tree achieves

  /** Nothing can be mounted at a place that is missing, nor if that place or what is to go there is a symbolic link. */
  ghost predicate Unmountable(fs: FileSystem, path: string, t: FileType) {
    fs.lstat(path) == None || fs.lstat(path) == Some(Lnk) || t == Lnk
  }

  ghost predicate NeedyChild(fs: FileSystem, path: string, n: Node) {
    exists k :: k in n.children && Unmountable(fs, path + "/" + k, n.children[k].fileType)
  }

  lemma DroppedIs(fs: FileSystem, path: string, kind: Kind, c: Node, k: string)
    ensures Under(path, k) == path + "/" + k
    ensures NeedsSkeleton(fs, Under(path, k), c) <==> Unmountable(fs, path + "/" + k, c.fileType)
    ensures Dropped(fs, Under(path, k), kind, c) <==>
            kind !in {Mirror, Inter, Skel} && Unmountable(fs, path + "/" + k, c.fileType)
  {
  }

  /**
   * The kind a loaded node ends with, read off the tree as loaded: `hosted` says that it ends right below a skeleton
   * that has a mirror.
   */
  ghost function FinalKind(fs: FileSystem, path: string, n: Node, hosted: bool): (k: Kind)
    ensures Rank(k) >= Rank(n.kind)
  {
    if !n.kind.Inter? then n.kind
    else if Unmountable(fs, path, n.fileType) then Module
    else if NeedyChild(fs, path, n) || hosted then Skel
    else Inter
  }

  /**
   * The names right below a node that ends as `a`: what was loaded, less what is dropped, and what a skeleton mirrors.
   */
  ghost predicate Remains(fs: FileSystem, path: string, n: Node, a: Node, k: string) {
    || (k in n.children && !a.kind.Module?
        && (n.kind in {Mirror, Inter, Skel} || !Unmountable(fs, path + "/" + k, n.children[k].fileType)))
    || (a.kind.Skel? && Mirrors(fs, path, k))
  }

  /** The node that mirrors what is there under a name: the first entry of that name. */
  ghost predicate MirrorOf(fs: FileSystem, path: string, k: string, c: Node) {
    fs.mirror(path).Some? && FirstEntry(fs.mirror(path).value, k, c)
  }

  ghost predicate FirstEntry(list: seq<Entry>, k: string, c: Node) {
    exists i :: 0 <= i < |list| && list[i].name == k && (forall j :: 0 <= j < i ==> list[j].name != k)
                && c == Node(k, list[i].fileType, false, Mirror, "", map[])
  }

  ghost predicate Mirrors(fs: FileSystem, path: string, k: string) {
    fs.mirror(path).Some? && exists i :: 0 <= i < |fs.mirror(path).value| && fs.mirror(path).value[i].name == k
  }

  /** `a` is what a loaded node `n` has to become: kind, names and children all the way down. */
  ghost predicate After(fs: FileSystem, path: string, n: Node, a: Node, hosted: bool)
    decreases n
  {
    && a.name == n.name && a.fileType == n.fileType && a.kind == FinalKind(fs, path, n, hosted)
    && (a.kind == n.kind || a.kind.Module? ==> a.source == n.source)
    && (a.kind.Skel? ==> (a.exist <==> fs.mirror(path).Some?))
    && Keyed(a.children) && (forall k :: k in a.children <==> Remains(fs, path, n, a, k))
    && forall k :: k in a.children ==>
      if k in n.children then After(fs, Under(path, k), n.children[k], a.children[k], a.kind.Skel?
          && fs.mirror(path).Some?)
      else MirrorOf(fs, path, k, a.children[k])
  }

  /** A node that stayed intermediate, or got a needy child, made a skeleton. */
  lemma {:induction false} SkeletonAfter(fs: FileSystem, path: string, n: Node, d: Node, hosted: bool)
    requires Loaded(n) && n.kind.Inter? && NamesMatch(d) && !NeedsSkeleton(fs, path, n)
             && (NeedyChild(fs, path, n) || hosted)
    requires d.name == n.name && d.fileType == n.fileType && d.kind.Inter? && d.children.Keys == n.children.Keys
    requires forall k :: k in n.children ==> After(fs, Under(path, k), n.children[k], d.children[k], false)
    ensures After(fs, path, n, Skeleton(fs, path, d), hosted)
    decreases n, 0
  {
    var a := Skeleton(fs, path, d);
    match fs.mirror(path) {
      case None =>
      case Some(list) =>
        SkeletonNames(fs, path, d, list);
        MirrorNames(d.children, list);
        forall k | k in a.children && k !in n.children ensures MirrorOf(fs, path, k, a.children[k]) {
          MirrorNodes(d.children, list, k);
        }
        forall k | k in n.children ensures After(fs, Under(path, k), n.children[k], a.children[k], true) {
          HostedChild(fs, Under(path, k), n.children[k], d.children[k]);
        }
    }
  }

  lemma SkeletonNames(fs: FileSystem, path: string, d: Node, list: seq<Entry>)
    requires NamesMatch(d) && fs.mirror(path) == Some(list)
    ensures Keyed(d.children)
    ensures var all, c := WithMirrors(d.children, list), Skeleton(fs, path, d).children;
            c.Keys == all.Keys && forall k :: k in c && k !in d.children ==> c[k] == all[k]
  {
    hide WithMirrors;
  }

  lemma HostedChild(fs: FileSystem, path: string, n: Node, d: Node)
    requires Loaded(n) && NamesMatch(d) && After(fs, path, n, d, false)
    ensures After(fs, path, n, if d.kind.Inter? then Skeleton(fs, path, d) else d, true)
    decreases n, 1
  {
    if d.kind.Inter? {
      hide *;
      StayedInter(fs, path, n, d);
      SkeletonAfter(fs, path, n, d, true);
    } else {
      HostedSame(fs, path, n, d);
    }
  }

  /** A directory that stayed intermediate has the children that were loaded. */
  lemma StayedInter(fs: FileSystem, path: string, n: Node, d: Node)
    requires Loaded(n) && After(fs, path, n, d, false) && d.kind.Inter?
    ensures n.kind.Inter? && !NeedsSkeleton(fs, path, n) && d.name == n.name && d.fileType == n.fileType
    ensures d.children.Keys == n.children.Keys
    ensures forall k :: k in n.children ==> After(fs, Under(path, k), n.children[k], d.children[k], false)
  {
    hide *;
    AfterTop(fs, path, n, d);
    forall k ensures k in d.children <==> k in n.children { InterRemains(fs, path, n, d, k); }
    forall k | k in n.children ensures After(fs, Under(path, k), n.children[k], d.children[k], false) {
      InterRemains(fs, path, n, d, k);
      AfterBelow(fs, path, n, d, k);
    }
  }

  lemma AfterTop(fs: FileSystem, path: string, n: Node, d: Node)
    requires After(fs, path, n, d, false) && d.kind.Inter?
    ensures n.kind.Inter? && !NeedsSkeleton(fs, path, n) && d.name == n.name && d.fileType == n.fileType
    ensures forall k :: k in d.children <==> Remains(fs, path, n, d, k)
  {
    hide Remains;
  }

  lemma InterRemains(fs: FileSystem, path: string, n: Node, d: Node, k: string)
    requires n.kind.Inter? && d.kind.Inter?
    ensures Remains(fs, path, n, d, k) <==> k in n.children
  {
  }

  lemma AfterBelow(fs: FileSystem, path: string, n: Node, d: Node, k: string)
    requires After(fs, path, n, d, false) && d.kind.Inter? && k in n.children && k in d.children
    ensures After(fs, Under(path, k), n.children[k], d.children[k], false)
  {
    hide NeedsSkeleton, Remains, FinalKind;
  }

  /** Only directories that stayed intermediate depend on what they are hosted by. */
  lemma HostedSame(fs: FileSystem, path: string, n: Node, d: Node)
    requires After(fs, path, n, d, false) && !d.kind.Inter?
    ensures After(fs, path, n, d, true)
  {
  }

  lemma {:induction false} MirrorNames(children: map<string, Node>, list: seq<Entry>)
    requires Keyed(children)
    ensures forall k :: k in WithMirrors(children, list) <==> k in children || exists i ::
            0 <= i < |list| && list[i].name == k
  {
    if list != [] {
      var t := list[..|list| - 1];
      MirrorNames(children, t);
      assert list == t + [list[|list| - 1]];
      assert WithMirrors(children, list).Keys == WithMirrors(children, t).Keys + {list[|list| - 1].name};
    }
  }

  lemma {:induction false} MirrorNodes(children: map<string, Node>, list: seq<Entry>, k: string)
    requires Keyed(children) && k in WithMirrors(children, list) && k !in children
    ensures FirstEntry(list, k, WithMirrors(children, list)[k])
  {
    hide *;
    MirrorsNext(children, list, k);
    var i := |list| - 1;
    var t := list[..i];
    if k in WithMirrors(children, t) {
      MirrorNodes(children, t, k);
      FirstStays(t, list[i], k, WithMirrors(children, t)[k]);
      assert t + [list[i]] == list;
    } else {
      FirstNew(children, list, k);
    }
  }

  /** The last entry adds a mirror if its name is new. */
  lemma MirrorsNext(children: map<string, Node>, list: seq<Entry>, k: string)
    requires Keyed(children) && k in WithMirrors(children, list) && k !in children
    ensures list != []
    ensures var (i, m) := (|list| - 1, WithMirrors(children, list));
            var t := WithMirrors(children, list[..i]);
            if k in t then m[k] == t[k] else list[i].name == k && m[k] == Bare(k, list[i].fileType, Mirror, "")
  {
  }

  lemma FirstNew(children: map<string, Node>, list: seq<Entry>, k: string)
    requires Keyed(children) && list != [] && list[|list| - 1].name == k
    requires k in WithMirrors(children, list) && k !in WithMirrors(children, list[..|list| - 1])
    requires WithMirrors(children, list)[k] == Bare(k, list[|list| - 1].fileType, Mirror, "")
    ensures FirstEntry(list, k, WithMirrors(children, list)[k])
  {
    MirrorNames(children, list[..|list| - 1]);
    hide WithMirrors, Keyed;
    assert forall x :: 0 <= x < |list| - 1 ==> list[x] == list[..|list| - 1][x];
  }

  lemma FirstStays(t: seq<Entry>, e: Entry, k: string, c: Node)
    requires FirstEntry(t, k, c)
    ensures FirstEntry(t + [e], k, c)
  {
    var j :| 0 <= j < |t| && t[j].name == k && (forall x :: 0 <= x < j ==> t[x].name != k)
             && c == Node(k, t[j].fileType, false, Mirror, "", map[]);
    assert (t + [e])[j] == t[j];
    assert forall x :: 0 <= x < j ==> (t + [e])[x] == t[x];
  }

  lemma {:induction false} BecomesAfter(fs: FileSystem, path: string, c: Node)
    requires Loaded(c) && NamesMatch(c)
    ensures After(fs, path, c, Becomes(fs, path, c), false)
    decreases c, 1
  {
    if !(NeedsSkeleton(fs, path, c) && c.kind.Inter?) && IsDirKind(c.kind) && c.fileType.Dir? {
      PreparedAfter(fs, path, c);
      var d := Seen(fs, path, Prepared(fs, path, c));
      if CanStay(fs, path, c) {
        StayingAfter(fs, path, c, d);
      } else {
        hide After, NamesMatch;
        CannotStay(fs, path, c);
        SkeletonAfter(fs, path, c, d, false);
      }
    } else {
      ChildlessAfter(fs, path, c);
    }
  }

  lemma CannotStay(fs: FileSystem, path: string, c: Node)
    requires Loaded(c) && IsDirKind(c.kind) && !CanStay(fs, path, c)
    ensures c.kind.Inter? && NeedyChild(fs, path, c)
  {
  }

  /** A directory that stays as it is. */
  lemma StayingAfter(fs: FileSystem, path: string, c: Node, d: Node)
    requires Loaded(c) && (c.kind.Inter? || c.kind.Root?) && CanStay(fs, path, c)
             && !(NeedsSkeleton(fs, path, c) && c.kind.Inter?)
    requires d.name == c.name && d.fileType == c.fileType && d.kind == c.kind && d.source == c.source
             && Keyed(d.children)
    requires forall k :: k in d.children <==> k in c.children && !Dropped(fs, Under(path, k), c.kind, c.children[k])
    requires forall k :: k in d.children ==> After(fs, Under(path, k), c.children[k], d.children[k], false)
    ensures After(fs, path, c, d, false)
  {
    hide *;
    StayingKind(fs, path, c, d);
    forall k ensures k in d.children <==> Remains(fs, path, c, d, k) {
      StayingRemains(fs, path, c, d, k);
    }
    StayedAfter(fs, path, c, d);
  }

  lemma StayingKind(fs: FileSystem, path: string, c: Node, d: Node)
    requires (c.kind.Inter? || c.kind.Root?) && CanStay(fs, path, c) && !(NeedsSkeleton(fs, path, c) && c.kind.Inter?)
    requires d.kind == c.kind
    ensures d.kind == FinalKind(fs, path, c, false) && !d.kind.Skel? && !d.kind.Module?
  {
    NotNeedy(fs, path, c);
    hide NeedyChild, CanStay, NeedsSkeleton, Unmountable;
  }

  lemma StayingRemains(fs: FileSystem, path: string, c: Node, d: Node, k: string)
    requires !d.kind.Skel? && !d.kind.Module?
    requires k in d.children <==> k in c.children && !Dropped(fs, Under(path, k), c.kind, c.children[k])
    ensures k in d.children <==> Remains(fs, path, c, d, k)
  {
    if k in c.children { DroppedIs(fs, path, c.kind, c.children[k], k); }
    hide Dropped, Unmountable, NeedsSkeleton, Under;
  }

  lemma StayedAfter(fs: FileSystem, path: string, c: Node, d: Node)
    requires d.name == c.name && d.fileType == c.fileType && d.source == c.source && Keyed(d.children)
    requires d.kind == FinalKind(fs, path, c, false) && !d.kind.Skel? && !d.kind.Module?
    requires d.children.Keys <= c.children.Keys && forall k :: k in d.children <==> Remains(fs, path, c, d, k)
    requires forall k :: k in d.children ==> After(fs, Under(path, k), c.children[k], d.children[k], false)
    ensures After(fs, path, c, d, false)
  {
    hide Remains, FinalKind, Under;
  }

  lemma NotNeedy(fs: FileSystem, path: string, c: Node)
    requires CanStay(fs, path, c)
    ensures c.kind.Inter? ==> !NeedyChild(fs, path, c)
    ensures NeedsSkeleton(fs, path, c) <==> Unmountable(fs, path, c.fileType)
  {
  }

  lemma ChildlessAfter(fs: FileSystem, path: string, c: Node)
    requires Loaded(c) && NamesMatch(c)
             && ((NeedsSkeleton(fs, path, c) && c.kind.Inter?) || !IsDirKind(c.kind) || !c.fileType.Dir?)
    ensures After(fs, path, c, Becomes(fs, path, c), false)
  {
    assert Becomes(fs, path, c).children == map[];
  }

  lemma {:induction false} PreparedAfter(fs: FileSystem, path: string, n: Node)
    requires Loaded(n) && NamesMatch(n)
    ensures var r := Prepared(fs, path, n);
            forall k :: k in r.children ==>
                k in n.children && After(fs, Under(path, k), n.children[k], r.children[k], false)
    decreases n, 0
  {
    var r := Prepared(fs, path, n);
    forall k | k in r.children ensures k in n.children && After(fs, Under(path, k), n.children[k], r.children[k], false)
        {
      BecomesAfter(fs, Under(path, k), n.children[k]);
    }
  }

  /**
   * What has to hang under a skeleton does, and no directory is left intermediate right below a skeleton with a
   * mirror.
   */
  ghost predicate WellHung(fs: FileSystem, path: string, a: Node)
    decreases a
  {
    && (a.kind.Skel? ==> (a.exist <==> fs.mirror(path).Some?))
    && forall k :: k in a.children ==>
      && (Unmountable(fs, path + "/" + k, a.children[k].fileType) ==> a.kind.Skel?)
      && (a.kind.Skel? && a.exist ==> !a.children[k].kind.Inter?)
      && WellHung(fs, Under(path, k), a.children[k])
  }

  lemma {:induction false} AfterHangs(fs: FileSystem, path: string, n: Node, a: Node, hosted: bool)
    requires Loaded(n) && After(fs, path, n, a, hosted)
    ensures WellHung(fs, path, a) && NamesMatch(a)
    decreases n
  {
    forall k | k in a.children
      ensures (Unmountable(fs, path + "/" + k, a.children[k].fileType) ==> a.kind.Skel?)
              && (a.kind.Skel? && a.exist ==> !a.children[k].kind.Inter?)
      ensures WellHung(fs, Under(path, k), a.children[k]) && NamesMatch(a.children[k])
    {
      assert Remains(fs, path, n, a, k);
      if k in n.children {
        AfterHangs(fs, Under(path, k), n.children[k], a.children[k], a.kind.Skel? && fs.mirror(path).Some?);
      }
    }
  }

  /** No name loses rank; a node of unchanged rank still comes from the same module. */
  ghost predicate Rises(n: Node, a: Node) {
    && a.name == n.name && Rank(n.kind) <= Rank(a.kind) && (a.kind == n.kind ==> a.source == n.source)
    && forall k :: k in n.children && k in a.children ==> Rises(n.children[k], a.children[k])
  }

  lemma {:induction false} AfterRises(fs: FileSystem, path: string, n: Node, a: Node, hosted: bool)
    requires After(fs, path, n, a, hosted)
    ensures Rises(n, a)
    decreases n
  {
    forall k | k in n.children && k in a.children ensures Rises(n.children[k], a.children[k]) {
      AfterRises(fs, Under(path, k), n.children[k], a.children[k], a.kind.Skel? && fs.mirror(path).Some?);
    }
  }

  lemma RootAfter(fs: FileSystem, path: string, n: Node)
    requires Loaded(n) && NamesMatch(n) && n.kind.Root?
    requires var r := Prepared(fs, path, n);
             forall k :: k in r.children ==>
                 k in n.children && After(fs, Under(path, k), n.children[k], r.children[k], false)
    ensures After(fs, path, n, Prepared(fs, path, n), false) && CanStay(fs, path, n)
  {
    var r := Prepared(fs, path, n);
    forall k | k in n.children ensures k in r.children <==> Remains(fs, path, n, r, k) {
      DroppedIs(fs, path, n.kind, n.children[k], k);
    }
    hide Dropped, Unmountable, NeedsSkeleton, Under, Settled;
  }

  /** Preparing the root of any loaded tree, on any file system. */
  lemma RootPrepared(fs: FileSystem, path: string, n: Node)
    requires Loaded(n) && NamesMatch(n) && n.kind.Root?
    ensures After(fs, path, n, Prepared(fs, path, n), false) && WellHung(fs, path, Prepared(fs, path, n))
            && Rises(n, Prepared(fs, path, n))
    ensures CanStay(fs, path, n)
  {
    PreparedAfter(fs, path, n);
    RootAfter(fs, path, n);
    hide *;
    AfterHangs(fs, path, n, Prepared(fs, path, n), false);
    AfterRises(fs, path, n, Prepared(fs, path, n), false);
  }

  // ------------------------------------------------------------ collecting the files of the modules

  /** One entry of a module directory, other than the replace marker, laid into node `t`. */
  function CollectEntry(t: Node, e: Entry, source: string): (r: Node)
    requires NamesMatch(t)
    ensures r == t.(children := r.children) && NamesMatch(r)
    decreases e, 1
  {
    if e.fileType.Dir? then
      match InsertOrGet(t.children, Bare(e.name, Dir, Inter, source))
      case None => t
      case Some(children) =>
        var dn := children[e.name];
        if e.opens then
          var d := Collect(dn, e.listing, source);
          t.(children := children[e.name := if Replaces(e.listing) then ToModule(d, source) else d])
        else t.(children := children)
    else
      match Insert(t.children, Bare(e.name, e.fileType, Module, source))
      case None => t
      case Some(children) => t.(children := children)
  }

  /** `dir_node::collect_files`: the entries in turn, up to a replace marker. */
  function Collect(t: Node, list: seq<Entry>, source: string): (r: Node)
    requires NamesMatch(t)
    ensures r == t.(children := r.children) && NamesMatch(r)
    decreases list, 0
  {
    if list == [] then t
    else
      var s := Collect(t, list[..|list| - 1], source);
      if Replaces(list) then s else CollectEntry(s, list[|list| - 1], source)
  }

  predicate Replaces(list: seq<Entry>) {
    exists i | 0 <= i < |list| :: list[i].name == ".replace"
  }

  /** The loop over the entries of an opened directory; false when a replace marker stopped it. */
  method CollectFiles(t: Node, opens: bool, list: seq<Entry>, source: string) returns (r: Node, ok: bool)
    requires NamesMatch(t)
    ensures r == if opens then Collect(t, list, source) else t
    ensures ok == !(opens && Replaces(list))
    decreases list, 1
  {
    r, ok := t, true;
    if !opens { return; }
    for i := 0 to |list|
      invariant NamesMatch(r) && r == Collect(t, list[..i], source) && !Replaces(list[..i])
    {
      assert list[..i + 1][..i] == list[..i];
      if list[i].name == ".replace" {
        CollectStops(t, list, i, source);
        return r, false;
      }
      var e := list[i];
      assert !Replaces(list[..i + 1]);
      r := LayEntry(r, e, source);
    }
    assert list[..|list|] == list;
  }

  method LayEntry(t: Node, e: Entry, source: string) returns (r: Node)
    requires NamesMatch(t)
    ensures r == CollectEntry(t, e, source)
    decreases e, 0
  {
    r := t;
    if e.fileType.Dir? {
      match InsertOrGet(t.children, Bare(e.name, Dir, Inter, source)) {
        case None =>
        case Some(children) =>
          var dn, ok := CollectFiles(children[e.name], e.opens, e.listing, source);
          var c := if ok then dn else ToModule(dn, source);
          r := t.(children := children[e.name := c]);
          assert children[e.name := children[e.name]] == children;
      }
    } else {
      match Insert(t.children, Bare(e.name, e.fileType, Module, source)) {
        case None =>
        case Some(children) => r := t.(children := children);
      }
    }
  }

  lemma {:induction false} CollectStops(t: Node, list: seq<Entry>, i: int, source: string)
    requires NamesMatch(t) && 0 <= i < |list| && list[i].name == ".replace" && !Replaces(list[..i])
    ensures Collect(t, list, source) == Collect(t, list[..i], source) && Replaces(list)
    decreases |list|
  {
    var p := list[..|list| - 1];
    if i < |list| - 1 {
      assert p[..i] == list[..i];
      CollectStops(t, p, i, source);
    }
  }

  /**
   * Laying files into a tree: no rank falls, of two nodes of one rank the first module's stays, and a directory that
   * stays one keeps its names. A directory that becomes a module node loses what was in it.
   */
  ghost predicate Grows(n: Node, a: Node) {
    && a.name == n.name && Rank(n.kind) <= Rank(a.kind) && (a.kind == n.kind ==> a.source == n.source)
        && (a.kind.Root? <==> n.kind.Root?)
    && (IsDirKind(a.kind) ==> n.children.Keys <= a.children.Keys)
    && forall k :: k in n.children && k in a.children ==> Grows(n.children[k], a.children[k])
  }

  lemma {:induction false} GrowsSame(n: Node)
    requires NamesMatch(n)
    ensures Grows(n, n)
  {
    forall k | k in n.children ensures Grows(n.children[k], n.children[k]) { GrowsSame(n.children[k]); }
  }

  lemma {:induction false} GrowsOn(n: Node, a: Node, c: Node)
    requires Loaded(n) && Loaded(a) && Loaded(c) && Grows(n, a) && Grows(a, c)
    ensures Grows(n, c)
    decreases n
  {
    forall k | k in n.children && k in c.children ensures Grows(n.children[k], c.children[k]) {
      GrowsOn(n.children[k], a.children[k], c.children[k]);
    }
  }

  ghost predicate Host(t: Node) {
    Loaded(t) && (t.kind.Inter? || t.kind.Root?) && t.fileType.Dir?
  }

  /** One child put in, above the one that was there if there was one. */
  lemma ChildLaid(t: Node, name: string, x: Node)
    requires Host(t) && NamesMatch(t) && Loaded(x) && x.name == name
    requires name in t.children ==> Grows(t.children[name], x)
    requires x.kind.Root? ==> name in t.children && t.children[name].kind.Root?
    ensures Host(t.(children := t.children[name := x])) && Grows(t, t.(children := t.children[name := x]))
  {
    forall k | k in t.children && k != name ensures Grows(t.children[k], t.children[k]) { GrowsSame(t.children[k]); }
  }

  function Lookup(children: map<string, Node>, name: string): (r: Option<Node>) {
    if name in children then Some(children[name]) else None
  }

  /** What an entry leaves under its name, where `there` was before. */
  ghost function LaidNode(there: Option<Node>, e: Entry, source: string): (r: Node)
    requires there.Some? ==> NamesMatch(there.value) && there.value.name == e.name
    ensures r.name == e.name && Rank(r.kind) >= Rank(if e.fileType.Dir? then Inter else Module)
  {
    if e.fileType.Dir? then
      if there.Some? && Rank(there.value.kind) > Rank(Inter) then there.value
      else if !e.opens then Opened(there, e, source)
      else
        var d := Collect(Opened(there, e, source), e.listing, source);
        if Replaces(e.listing) then ToModule(d, source) else d
    else if there.None? then Bare(e.name, e.fileType, Module, source)
    else if Rank(there.value.kind) >= Rank(Module) then there.value
    else MergeNode(Bare(e.name, e.fileType, Module, source), there.value)
  }

  /** The directory node that a directory entry is collected into. */
  ghost function Opened(there: Option<Node>, e: Entry, source: string): (r: Node)
    requires there.Some? ==>
             NamesMatch(there.value) && there.value.name == e.name && Rank(there.value.kind) <= Rank(Inter)
    ensures NamesMatch(r) && r.kind.Inter? && r.name == e.name
  {
    if there.None? then Bare(e.name, Dir, Inter, source)
    else if there.value.kind.Inter? then there.value
    else
      assert NamesMatch(Bare(e.name, Dir, Inter, source));
      MergeNode(Bare(e.name, Dir, Inter, source), there.value)
  }

  /** An entry shows under its own name, and what it leaves there depends on nothing else in the tree. */
  lemma EntryShows(t: Node, e: Entry, source: string)
    requires NamesMatch(t)
    ensures CollectEntry(t, e, source)
            == t.(children := t.children[e.name := LaidNode(Lookup(t.children, e.name), e, source)])
  {
    var there := Lookup(t.children, e.name);
    if e.fileType.Dir? {
      hide Insert, MergeNode, NamesMatch, LaidNode;
      DirectoryShows(t.children, there, e, source);
      LaidDirectory(there, e, source);
    } else {
      FileShows(t.children, there, e, source);
    }
  }

  lemma DirectoryShows(children: map<string, Node>, there: Option<Node>, e: Entry, source: string)
    requires Keyed(children) && there == Lookup(children, e.name) && (there.Some? ==> NamesMatch(there.value))
    ensures var r := InsertOrGet(children, Bare(e.name, Dir, Inter, source));
            if there.Some? && Rank(there.value.kind) > Rank(Inter) then r.None?
                && children[e.name := there.value] == children
            else r == Some(children[e.name := Opened(there, e, source)])
  {
    if there.Some? {
      assert children[e.name := there.value] == children;
      var m := MergeNode(Bare(e.name, Dir, Inter, source), there.value);
      assert (children - {e.name})[e.name := m] == children[e.name := m];
    }
  }

  lemma LaidDirectory(there: Option<Node>, e: Entry, source: string)
    requires e.fileType.Dir? && (there.Some? ==> NamesMatch(there.value) && there.value.name == e.name)
    ensures var r := LaidNode(there, e, source);
            if there.Some? && Rank(there.value.kind) > Rank(Inter) then r == there.value
            else if !e.opens then r == Opened(there, e, source)
            else
              var d := Collect(Opened(there, e, source), e.listing, source);
              r == if Replaces(e.listing) then ToModule(d, source) else d
  {
  }

  lemma FileShows(children: map<string, Node>, there: Option<Node>, e: Entry, source: string)
    requires Keyed(children) && there == Lookup(children, e.name) && (there.Some? ==> NamesMatch(there.value))
             && !e.fileType.Dir?
    ensures var r := Insert(children, Bare(e.name, e.fileType, Module, source));
            (if r.None? then children else r.value) == children[e.name := LaidNode(there, e, source)]
  {
    if there.Some? {
      assert children[e.name := there.value] == children;
      var m := MergeNode(Bare(e.name, e.fileType, Module, source), there.value);
      assert (children - {e.name})[e.name := m] == children[e.name := m];
    }
  }

  lemma {:induction false} LaidLoaded(there: Option<Node>, e: Entry, source: string)
    requires there.Some? ==> NamesMatch(there.value) && there.value.name == e.name && Loaded(there.value)
    ensures var r := LaidNode(there, e, source);
            Loaded(r) && (there.Some? ==> Grows(there.value, r))
                && (r.kind.Root? ==> there.Some? && there.value.kind.Root?)
    decreases e, 1
  {
    if there.Some? { GrowsSame(there.value); }
    if e.fileType.Dir? && !(there.Some? && Rank(there.value.kind) > Rank(Inter)) {
      var x := Opened(there, e, source);
      assert Host(x);
      GrowsSame(x);
      CollectLoaded(x, e.listing, source);
      ModuleGrows(x, Collect(x, e.listing, source), source);
    }
  }

  lemma ModuleGrows(x: Node, d: Node, source: string)
    requires Host(x) && x.kind.Inter? && Grows(x, d) && Host(d) && d.kind.Inter?
    ensures Loaded(ToModule(d, source)) && Grows(x, ToModule(d, source)) && ToModule(d, source).kind.Module?
  {
  }

  lemma {:induction false} EntryLoaded(t: Node, e: Entry, source: string)
    requires Host(t) && NamesMatch(t)
    ensures Host(CollectEntry(t, e, source)) && Grows(t, CollectEntry(t, e, source))
    decreases e, 2
  {
    EntryShows(t, e, source);
    LaidLoaded(Lookup(t.children, e.name), e, source);
    hide CollectEntry, LaidNode, Grows;
    ChildLaid(t, e.name, LaidNode(Lookup(t.children, e.name), e, source));
  }

  lemma {:induction false} CollectLoaded(t: Node, list: seq<Entry>, source: string)
    requires Host(t) && NamesMatch(t)
    ensures Host(Collect(t, list, source)) && Grows(t, Collect(t, list, source))
    decreases list, 0
  {
    if list == [] {
      GrowsSame(t);
    } else {
      var p := list[..|list| - 1];
      CollectLoaded(t, p, source);
      if !Replaces(list) {
        EntryLoaded(Collect(t, p, source), list[|list| - 1], source);
        GrowsOn(t, Collect(t, p, source), Collect(t, list, source));
      }
    }
  }

  ghost predicate Listed(list: seq<Entry>, k: string) {
    exists i :: 0 <= i < |list| && list[i].name == k
  }

  /**
   * One module directory, whose names are distinct: the tree has the old names and the new ones, every entry has its
   * own effect whatever the order of the listing, and the rest is untouched.
   */
  lemma {:induction false} CollectCovers(t: Node, list: seq<Entry>, source: string)
    requires NamesMatch(t) && !Replaces(list) && forall i, j :: 0 <= i < j < |list| ==> list[i].name != list[j].name
    ensures forall k :: k in Collect(t, list, source).children <==> k in t.children || Listed(list, k)
    ensures forall k :: k in t.children && !Listed(list, k) ==> Collect(t, list, source).children[k] == t.children[k]
    ensures forall i :: 0 <= i < |list| ==> EntryLaid(t, Collect(t, list, source), list[i], source)
    decreases |list|
  {
    if list != [] {
      var p, e := list[..|list| - 1], list[|list| - 1];
      assert list == p + [e];
      CollectCovers(t, p, source);
      var s := Collect(t, p, source);
      assert Collect(t, list, source) == CollectEntry(s, e, source);
      assert !Listed(p, e.name);
      SameLookup(s.children, t.children, e.name);
      hide CollectEntry, LaidNode, Collect, Lookup;
      EntryShows(s, e, source);
      CoversOn(t, s, Collect(t, list, source), p, e, source);
    }
  }

  lemma SameLookup(s: map<string, Node>, t: map<string, Node>, name: string)
    requires (name in s <==> name in t) && (name in t ==> s[name] == t[name])
    ensures Lookup(s, name) == Lookup(t, name)
  {
  }

  lemma CoversOn(t: Node, s: Node, r: Node, p: seq<Entry>, e: Entry, source: string)
    requires NamesMatch(t) && NamesMatch(s) && !Listed(p, e.name)
    requires r.children == s.children[e.name := LaidNode(Lookup(t.children, e.name), e, source)]
    requires forall k :: k in s.children <==> k in t.children || Listed(p, k)
    requires forall k :: k in t.children && !Listed(p, k) ==> s.children[k] == t.children[k]
    requires forall i :: 0 <= i < |p| ==> EntryLaid(t, s, p[i], source)
    ensures forall k :: k in r.children <==> k in t.children || Listed(p + [e], k)
    ensures forall k :: k in t.children && !Listed(p + [e], k) ==> r.children[k] == t.children[k]
    ensures forall i :: 0 <= i < |p + [e]| ==> EntryLaid(t, r, (p + [e])[i], source)
  {
    hide NamesMatch, LaidNode, Lookup;
    ListedOn(p, e);
    LaidOn(t, s, r, p, e, source);
  }

  lemma LaidOn(t: Node, s: Node, r: Node, p: seq<Entry>, e: Entry, source: string)
    requires NamesMatch(t) && !Listed(p, e.name)
    requires r.children == s.children[e.name := LaidNode(Lookup(t.children, e.name), e, source)]
    requires forall i :: 0 <= i < |p| ==> EntryLaid(t, s, p[i], source)
    ensures forall i :: 0 <= i < |p + [e]| ==> EntryLaid(t, r, (p + [e])[i], source)
  {
    hide NamesMatch, LaidNode, Lookup;
    forall i | 0 <= i < |p + [e]| ensures EntryLaid(t, r, (p + [e])[i], source) {
      if i < |p| {
        assert EntryLaid(t, s, p[i], source) && Listed(p, p[i].name);
      }
    }
  }

  lemma ListedOn(p: seq<Entry>, e: Entry)
    ensures forall k :: Listed(p + [e], k) <==> Listed(p, k) || k == e.name
  {
    forall k ensures Listed(p + [e], k) <==> Listed(p, k) || k == e.name {
      if Listed(p, k) {
        var i :| 0 <= i < |p| && p[i].name == k;
        assert (p + [e])[i].name == k;
      }
      assert (p + [e])[|p|] == e;
    }
  }

  ghost predicate EntryLaid(t: Node, r: Node, e: Entry, source: string)
    requires NamesMatch(t)
  {
    e.name in r.children && r.children[e.name] == LaidNode(Lookup(t.children, e.name), e, source)
  }

  // ------------------------------------------------------------ the whole tree

  /** A module that takes part, and its `system` directory. */
  datatype Source = Source(name: string, opens: bool, listing: seq<Entry>)

  const PARTITIONS: seq<string> := ["vendor", "product", "system_ext"]

  function CollectAll(t: Node, modules: seq<Source>): (r: Node)
    requires NamesMatch(t)
    ensures r == t.(children := r.children) && NamesMatch(r)
  {
    if modules == [] then t
    else
      var m := modules[|modules| - 1];
      var s := CollectAll(t, modules[..|modules| - 1]);
      if m.opens then Collect(s, m.listing, m.name) else s
  }

  /** The names of the own applets are taken out, so that no module can stand in for them. */
  function Without(children: map<string, Node>, names: seq<string>): (r: map<string, Node>)
    ensures r.Keys <= children.Keys && forall k :: k in r ==> r[k] == children[k]
  {
    if names == [] then children else Without(children, names[..|names| - 1]) - {names[|names| - 1]}
  }

  /** The own binaries put into `bin`; None where `bin` is no intermediate directory, which the cast does not check. */
  function Injected(system: Node, applets: seq<string>): (r: Option<Node>)
    requires NamesMatch(system)
    ensures r.None? <==> "bin" in system.children && !system.children["bin"].kind.Inter?
    ensures r.Some? ==> r.value == system.(children := r.value.children) && NamesMatch(r.value)
  {
    if "bin" in system.children && !system.children["bin"].kind.Inter? then None
    else Some(system.(children := system.children["bin" := Stocked(BinOf(system), applets)]))
  }

  function BinOf(system: Node): (r: Node)
    requires NamesMatch(system)
    ensures NamesMatch(r) && r.name == "bin"
  {
    if "bin" in system.children then system.children["bin"] else Bare("bin", Dir, Inter, "")
  }

  /** `bin` with the own binaries, and without anything under the names of the applets. */
  function Stocked(bin: Node, applets: seq<string>): (r: Node)
    requires NamesMatch(bin)
    ensures r == bin.(children := r.children) && NamesMatch(r)
  {
    var b := Inserted(Inserted(bin, Bare("magisk", Reg, Custom, "")), Bare("magiskinit", Reg, Custom, ""));
    b.(children := Without(b.children, applets))
  }

  /**
   * Whatever modules put there: the own binaries are in `bin`, no applet is, and nothing else is touched. The file type
   * of an own binary is that of what a module has laid under its name.
   */
  lemma OwnBinaries(system: Node, applets: seq<string>, k: string)
    requires NamesMatch(system) && Injected(system, applets).Some?
    ensures "bin" in Injected(system, applets).value.children
    ensures var bin := Injected(system, applets).value.children["bin"].children;
            if k in applets then k !in bin
            else if k == "magisk" || k == "magiskinit" then
              && k in bin && bin[k].kind.Custom?
              && (bin[k].fileType
                  == (if k in BinOf(system).children then BinOf(system).children[k].fileType else Reg))
            else if k in BinOf(system).children then k in bin && bin[k] == BinOf(system).children[k]
            else k !in bin
  {
    var (b, m, i) := (BinOf(system), Bare("magisk", Reg, Custom, ""), Bare("magiskinit", Reg, Custom, ""));
    OwnInserted(b, m, k);
    OwnInserted(Inserted(b, m), i, k);
    hide Inserted, Insert, NamesMatch;
    WithoutAll(Inserted(Inserted(b, m), i).children, applets, k);
  }

  lemma OwnInserted(t: Node, node: Node, k: string)
    requires NamesMatch(t) && NamesMatch(node) && node.kind.Custom?
    ensures var r := Inserted(t, node).children;
            && node.name in r && r[node.name].kind.Custom?
            && (r[node.name].fileType
                == (if node.name in t.children then t.children[node.name].fileType else node.fileType))
            && (k != node.name ==> (k in r <==> k in t.children) && (k in r ==> r[k] == t.children[k]))
  {
  }

  lemma {:induction false} WithoutAll(children: map<string, Node>, names: seq<string>, k: string)
    ensures k in Without(children, names) <==> k in children && k !in names
  {
    if names != [] {
      WithoutAll(children, names[..|names| - 1], k);
    }
  }

  /** `insert`; a rejected node changes nothing. */
  function Inserted(t: Node, node: Node): (r: Node)
    requires NamesMatch(t) && NamesMatch(node)
    ensures r == t.(children := r.children) && NamesMatch(r) && t.children.Keys <= r.children.Keys
  {
    InsertNames(t.children, node);
    match Insert(t.children, node)
    case None => t
    case Some(c) => t.(children := c)
  }

  lemma InsertNames(children: map<string, Node>, node: Node)
    requires Keyed(children) && NamesMatch(node) && forall k :: k in children ==> NamesMatch(children[k])
    ensures var r := Insert(children, node); r.Some? ==> forall k :: k in r.value ==> NamesMatch(r.value[k])
  {
    if node.name in children {
      assert NamesMatch(MergeNode(node, children[node.name]));
    }
  }

  lemma RootNames(n: Node)
    requires NamesMatch(n)
    ensures NamesMatch(ToRoot(n)) && ToRoot(n).name == n.name
  {
    assert n.children + map[] == n.children;
  }

  /** `system` without one of its children. */
  function Extracted(root: Node, part: string): (r: Node)
    requires "system" in root.children
    ensures r == root.(children := r.children) && r.children.Keys == root.children.Keys
  {
    var system := root.children["system"];
    root.(children := root.children["system" := system.(children := system.children - {part})])
  }

  lemma ExtractNames(root: Node, part: string)
    requires NamesMatch(root) && "system" in root.children && part in root.children["system"].children
    ensures NamesMatch(Extracted(root, part)) && NamesMatch(ToRoot(root.children["system"].children[part]))
    ensures ToRoot(root.children["system"].children[part]).name == part
  {
    var system := root.children["system"];
    assert NamesMatch(system) && NamesMatch(system.children[part]);
    RootNames(system.children[part]);
    assert NamesMatch(system.(children := system.children - {part}));
  }

  /** The first `n` partitions that are real directories move from `system` up to the root. */
  function Partitioned(fs: FileSystem, root: Node, n: nat): (r: Node)
    requires n <= |PARTITIONS| && NamesMatch(root) && "system" in root.children
    ensures r == root.(children := r.children) && NamesMatch(r) && "system" in r.children
  {
    if n == 0 then root
    else
      var r := Partitioned(fs, root, n - 1);
      var (part, system) := (PARTITIONS[n - 1], r.children["system"]);
      if fs.lstat("/" + part) == Some(Dir) && part in system.children then
        ExtractNames(r, part);
        Inserted(Extracted(r, part), ToRoot(system.children[part]))
      else r
  }

  /** Partition `k` is among the first `n`, a directory of its own, and something is laid under its name. */
  predicate Moves(fs: FileSystem, system: Node, n: nat, k: string)
    requires n <= |PARTITIONS|
  {
    k in PARTITIONS[..n] && fs.lstat("/" + k) == Some(Dir) && k in system.children
  }

  /**
   * The partitions that move leave `system` and are roots beside it, with the children they had if they are
   * directories; all else stays where it was.
   */
  lemma {:induction false} PartitionsMoved(fs: FileSystem, root: Node, n: nat, k: string)
    requires n <= |PARTITIONS| && NamesMatch(root) && root.children.Keys == {"system"}
    ensures PartMoved(fs, root.children["system"], Partitioned(fs, root, n), n, k)
  {
    hide *;
    if n == 0 {
      NoneMoved(fs, root, k);
    } else {
      var part, system, r := PARTITIONS[n - 1], root.children["system"], Partitioned(fs, root, n - 1);
      PartitionsMoved(fs, root, n - 1, k);
      PartitionsMoved(fs, root, n - 1, part);
      PartitionNames(n);
      PartitionedOn(fs, root, n);
      NotMovedYet(fs, system, r, n);
      if Partable(fs, r, part) {
        PartitionStep(fs, r, part);
        MovesOne(fs, system, r, Inserted(Extracted(r, part), ToRoot(r.children["system"].children[part])), n, k);
      } else {
        MovesNone(fs, system, r, n, k);
      }
    }
  }

  ghost predicate PartMoved(fs: FileSystem, system: Node, r: Node, n: nat, k: string)
    requires n <= |PARTITIONS| && "system" in r.children
  {
    && (k in r.children <==> k == "system" || Moves(fs, system, n, k))
    && (Moves(fs, system, n, k) ==>
        k in system.children && k != "system" && k in r.children && RootOf(system.children[k], r.children[k]))
    && (k in r.children["system"].children <==> k in system.children && !Moves(fs, system, n, k))
    && (k in r.children["system"].children ==> r.children["system"].children[k] == system.children[k])
    && r.children["system"] == system.(children := r.children["system"].children)
  }

  /** `r` stands for `n` as the root of a partition, with the children of `n` if that is a directory. */
  ghost predicate RootOf(n: Node, r: Node) {
    r == Node(n.name, n.fileType, n.exist, Root, "", if IsDirKind(n.kind) then n.children else map[])
  }

  predicate Partable(fs: FileSystem, r: Node, part: string)
    requires "system" in r.children
  {
    fs.lstat("/" + part) == Some(Dir) && part in r.children["system"].children
  }

  lemma NoneMoved(fs: FileSystem, root: Node, k: string)
    requires NamesMatch(root) && root.children.Keys == {"system"}
    ensures PartMoved(fs, root.children["system"], Partitioned(fs, root, 0), 0, k)
  {
    assert root.children["system"] == root.children["system"].(children := root.children["system"].children);
  }

  lemma PartitionNames(n: nat)
    requires 0 < n <= |PARTITIONS|
    ensures PARTITIONS[n - 1] != "system" && PARTITIONS[n - 1] !in PARTITIONS[..n - 1]
    ensures forall k :: k in PARTITIONS[..n] <==> k in PARTITIONS[..n - 1] || k == PARTITIONS[n - 1]
  {
    assert PARTITIONS[..n] == PARTITIONS[..n - 1] + [PARTITIONS[n - 1]];
    assert PARTITIONS[0] == "vendor" && PARTITIONS[1] == "product" && PARTITIONS[2] == "system_ext";
    assert "vendor"[0] != "product"[0] && "vendor"[0] != "system_ext"[0] && "product"[0] != "system_ext"[0];
    assert |"system"| == 6 && |"system_ext"| == 10 && "vendor"[0] != "system"[0] && "product"[0] != "system"[0];
    assert forall i :: 0 <= i < n - 1 ==> PARTITIONS[..n - 1][i] == PARTITIONS[i];
  }

  lemma PartitionedOn(fs: FileSystem, root: Node, n: nat)
    requires 0 < n <= |PARTITIONS| && NamesMatch(root) && "system" in root.children
    ensures var (r, part) := (Partitioned(fs, root, n - 1), PARTITIONS[n - 1]);
            if Partable(fs, r, part) then
              && part in r.children["system"].children
              && NamesMatch(r) && NamesMatch(Extracted(r, part))
              && NamesMatch(ToRoot(r.children["system"].children[part]))
              && Partitioned(fs, root, n) == Inserted(Extracted(r, part), ToRoot(r.children["system"].children[part]))
            else Partitioned(fs, root, n) == r
  {
    var (r, part) := (Partitioned(fs, root, n - 1), PARTITIONS[n - 1]);
    if Partable(fs, r, part) { ExtractNames(r, part); }
  }

  lemma NotMovedYet(fs: FileSystem, system: Node, r: Node, n: nat)
    requires 0 < n <= |PARTITIONS| && "system" in r.children && PartMoved(fs, system, r, n - 1, PARTITIONS[n - 1])
    requires PARTITIONS[n - 1] != "system" && PARTITIONS[n - 1] !in PARTITIONS[..n - 1]
    ensures var part := PARTITIONS[n - 1];
            && part !in r.children && (part in r.children["system"].children <==> part in system.children)
            && (part in system.children ==> r.children["system"].children[part] == system.children[part])
  {
  }

  /** The partition in turn moves. */
  lemma MovesOne(fs: FileSystem, system: Node, r: Node, s: Node, n: nat, k: string)
    requires 0 < n <= |PARTITIONS| && "system" in r.children && "system" in s.children
    requires PartMoved(fs, system, r, n - 1, k) && Partable(fs, r, PARTITIONS[n - 1])
    requires forall x :: x in PARTITIONS[..n] <==> x in PARTITIONS[..n - 1] || x == PARTITIONS[n - 1]
    requires var part := PARTITIONS[n - 1];
             && part != "system" && part in system.children
             && s.children.Keys == r.children.Keys + {part} && s.children[part] == ToRoot(system.children[part])
             && s.children["system"] == r.children["system"].(children := r.children["system"].children - {part})
             && forall x :: x in r.children && x != "system" ==> s.children[x] == r.children[x]
    requires PARTITIONS[n - 1] !in r.children
    ensures PartMoved(fs, system, s, n, k)
  {
    MovedChildren(system, PARTITIONS[n - 1]);
    hide ToRoot;
  }

  lemma MovesNone(fs: FileSystem, system: Node, r: Node, n: nat, k: string)
    requires 0 < n <= |PARTITIONS| && "system" in r.children
    requires PartMoved(fs, system, r, n - 1, k) && !Partable(fs, r, PARTITIONS[n - 1])
    requires forall x :: x in PARTITIONS[..n] <==> x in PARTITIONS[..n - 1] || x == PARTITIONS[n - 1]
    requires PARTITIONS[n - 1] in r.children["system"].children <==> PARTITIONS[n - 1] in system.children
    ensures PartMoved(fs, system, r, n, k)
  {
  }

  /** One partition moves, if it is one that does and has not moved yet. */
  lemma PartitionStep(fs: FileSystem, r: Node, part: string)
    requires NamesMatch(r) && "system" in r.children && part != "system" && part !in r.children
    requires part in r.children["system"].children
    ensures NamesMatch(Extracted(r, part)) && NamesMatch(ToRoot(r.children["system"].children[part]))
    ensures var s := Inserted(Extracted(r, part), ToRoot(r.children["system"].children[part]));
            && s.children.Keys == r.children.Keys + {part} && s.children[part]
                == ToRoot(r.children["system"].children[part])
            && s.children["system"]
               == r.children["system"].(children := r.children["system"].children - {part})
            && forall x :: x in r.children && x != "system" ==> s.children[x] == r.children[x]
  {
    ExtractNames(r, part);
  }

  lemma MovedChildren(system: Node, k: string)
    ensures k in system.children ==> RootOf(system.children[k], ToRoot(system.children[k]))
  {
    if k in system.children { assert system.children[k].children + map[] == system.children[k].children; }
  }

  /**
   * The tree as it stands before it is prepared; None where nothing is to be mounted, or the cast of `bin` is wrong.
   */
  datatype Assembly = Nothing | Wrong | Tree(root: Node)

  function Assembled(fs: FileSystem, modules: seq<Source>, sbin: bool, applets: seq<string>): (r: Assembly)
    ensures r.Tree? ==> NamesMatch(r.root)
    ensures var collected := CollectAll(Bare("system", Dir, Root, ""), modules).children;
            r.Wrong? <==> !sbin && "bin" in collected && !collected["bin"].kind.Inter?
  {
    var system := CollectAll(Bare("system", Dir, Root, ""), modules);
    var injected := if sbin then Some(system) else Injected(system, applets);
    if injected.None? then Wrong
    else if injected.value.children == map[] then Nothing
    else
      var root := Bare("", Dir, Root, "").(children := map["system" := injected.value]);
      Tree(Partitioned(fs, root, |PARTITIONS|))
  }

  /** A module whose `system/bin` is a file. */
  lemma FileAsBin(fs: FileSystem, m: string, applets: seq<string>)
    ensures Assembled(fs, [Source(m, true, [Entry("bin", Reg, false, [])])], false, applets) == Wrong
  {
    var (system, e) := (Bare("system", Dir, Root, ""), Entry("bin", Reg, false, []));
    var source := Source(m, true, [e]);
    assert [source][..0] == [] && [e][..0] == [];
    assert CollectAll(system, [source]) == Collect(system, [e], m);
    assert !Replaces([e]) && Collect(system, [], m) == system;
    assert Collect(system, [e], m) == CollectEntry(system, e, m);
    assert CollectEntry(system, e, m).children["bin"].kind == Module;
  }

  lemma {:induction false} CollectAllLoaded(t: Node, modules: seq<Source>)
    requires Host(t) && NamesMatch(t)
    ensures Host(CollectAll(t, modules)) && Grows(t, CollectAll(t, modules))
  {
    if modules == [] {
      GrowsSame(t);
    } else {
      var m, s := modules[|modules| - 1], CollectAll(t, modules[..|modules| - 1]);
      CollectAllLoaded(t, modules[..|modules| - 1]);
      if m.opens {
        CollectLoaded(s, m.listing, m.name);
        GrowsOn(t, s, Collect(s, m.listing, m.name));
      }
    }
  }

  /** Further modules only raise the tree: no name that is left has a lower rank, or another module at the same rank. */
  lemma {:induction false} OnlyRaised(t: Node, modules: seq<Source>, i: nat)
    requires Host(t) && NamesMatch(t) && i <= |modules|
    ensures Host(CollectAll(t, modules[..i])) && Grows(CollectAll(t, modules[..i]), CollectAll(t, modules))
    decreases |modules|
  {
    if i == |modules| {
      CollectAllLoaded(t, modules);
      assert modules[..i] == modules;
      GrowsSame(CollectAll(t, modules));
    } else {
      var m, s := modules[|modules| - 1], CollectAll(t, modules[..|modules| - 1]);
      assert modules[..|modules| - 1][..i] == modules[..i];
      OnlyRaised(t, modules[..|modules| - 1], i);
      CollectAllLoaded(t, modules[..|modules| - 1]);
      if m.opens {
        CollectLoaded(s, m.listing, m.name);
        GrowsOn(CollectAll(t, modules[..i]), s, Collect(s, m.listing, m.name));
      }
    }
  }

  lemma LeafInserted(t: Node, node: Node)
    requires Host(t) && t.kind.Inter? && NamesMatch(t) && node.kind.Custom? && node.children == map[]
    ensures Host(Inserted(t, node)) && node.name in Inserted(t, node).children
            && Inserted(t, node).children[node.name].kind.Custom?
    ensures forall k :: k in t.children && k != node.name ==>
            k in Inserted(t, node).children && Inserted(t, node).children[k] == t.children[k]
  {
    var y := LeafOver(t, node);
    hide Inserted, Grows, Loaded, NamesMatch;
    ChildLaid(t, node.name, y);
  }

  lemma LeafOver(t: Node, node: Node) returns (y: Node)
    requires Host(t) && t.kind.Inter? && NamesMatch(t) && node.kind.Custom? && node.children == map[]
    ensures Inserted(t, node) == t.(children := t.children[node.name := y])
    ensures Loaded(y) && y.kind.Custom? && y.name == node.name
            && (node.name in t.children ==> Grows(t.children[node.name], y))
  {
    y := node;
    if node.name in t.children {
      var there := t.children[node.name];
      assert Loaded(there);
      GrowsSame(there);
      if Rank(there.kind) < Rank(Custom) {
        y := MergeNode(node, there);
        assert (t.children - {node.name})[node.name := y] == t.children[node.name := y];
      } else {
        y := there;
        assert t.children[node.name := there] == t.children;
      }
    }
  }

  lemma StockedLoaded(bin: Node, applets: seq<string>)
    requires Host(bin) && NamesMatch(bin) && bin.kind.Inter?
    ensures Loaded(Stocked(bin, applets))
  {
    var m1, m2 := Bare("magisk", Reg, Custom, ""), Bare("magiskinit", Reg, Custom, "");
    LeafInserted(bin, m1);
    LeafInserted(Inserted(bin, m1), m2);
    hide Inserted;
  }

  lemma InjectedLoaded(system: Node, applets: seq<string>)
    requires Host(system) && NamesMatch(system) && Injected(system, applets).Some?
    ensures Host(Injected(system, applets).value)
  {
    hide Stocked;
    BinLoaded(system);
    StockedLoaded(BinOf(system), applets);
    BinReplaced(system, Stocked(BinOf(system), applets));
  }

  lemma BinLoaded(system: Node)
    requires Host(system) && NamesMatch(system) && ("bin" in system.children ==> system.children["bin"].kind.Inter?)
    ensures Host(BinOf(system)) && BinOf(system).kind.Inter?
  {
    if "bin" in system.children { assert Loaded(system.children["bin"]); }
  }

  lemma BinReplaced(system: Node, bin: Node)
    requires Host(system) && Loaded(bin) && bin.kind.Inter? && bin.name == "bin"
    ensures Host(system.(children := system.children["bin" := bin]))
  {
  }

  /** The tree while partitions move up: below the top there are partition roots only. */
  ghost predicate Top(root: Node) {
    && NamesMatch(root) && Loaded(root) && root.kind.Root? && root.fileType.Dir? && "system" in root.children
    && (forall k :: k in root.children ==> root.children[k].kind.Root?) && Host(root.children["system"])
  }

  lemma {:induction false} PartitionedLoaded(fs: FileSystem, root: Node, n: nat)
    requires n <= |PARTITIONS| && Top(root)
    ensures Top(Partitioned(fs, root, n))
  {
    if n > 0 {
      PartitionedLoaded(fs, root, n - 1);
      var r := Partitioned(fs, root, n - 1);
      var part := PARTITIONS[n - 1];
      if fs.lstat("/" + part) == Some(Dir) && part in r.children["system"].children {
        ExtractedTop(r, part);
        RootOfLoaded(r, part);
        RootInserted(Extracted(r, part), ToRoot(r.children["system"].children[part]));
      }
    }
  }

  lemma ExtractedTop(r: Node, part: string)
    requires Top(r) && part in r.children["system"].children
    ensures Top(Extracted(r, part))
  {
    ExtractNames(r, part);
    var system := r.children["system"];
    assert Loaded(system.(children := system.children - {part}));
  }

  lemma RootOfLoaded(r: Node, part: string)
    requires Top(r) && part in r.children["system"].children
    ensures var n := ToRoot(r.children["system"].children[part]);
            Loaded(n) && NamesMatch(n) && n.kind.Root? && n.name == part
  {
    ExtractNames(r, part);
    var c := r.children["system"].children[part];
    assert Loaded(c) && c.children + map[] == c.children;
  }

  lemma RootInserted(t: Node, node: Node)
    requires Top(t) && Loaded(node) && NamesMatch(node) && node.kind.Root?
    ensures Top(Inserted(t, node))
  {
    RootPlaced(t, node);
    hide *;
    if node.name !in t.children {
      RootAdded(t, node);
    }
  }

  lemma RootAdded(t: Node, node: Node)
    requires Top(t) && Loaded(node) && NamesMatch(node) && node.kind.Root? && node.name !in t.children
    ensures Top(t.(children := t.children[node.name := node]))
  {
    assert node.name != "system";
  }

  lemma RootPlaced(t: Node, node: Node)
    requires Top(t) && NamesMatch(node) && node.kind.Root?
    ensures Inserted(t, node) == if node.name in t.children then t else t.(children := t.children[node.name := node])
  {
    hide NamesMatch, Loaded, Host;
  }

  /** Whatever modules there are, the assembled tree is one that `prepare` is made for. */
  lemma AssembledLoaded(fs: FileSystem, modules: seq<Source>, sbin: bool, applets: seq<string>)
    requires Assembled(fs, modules, sbin, applets).Tree?
    ensures var root := Assembled(fs, modules, sbin, applets).root; Loaded(root) && NamesMatch(root) && root.kind.Root?
  {
    var t := Bare("system", Dir, Root, "");
    CollectAllLoaded(t, modules);
    var system := CollectAll(t, modules);
    if !sbin { InjectedLoaded(system, applets); }
    var injected := if sbin then system else Injected(system, applets).value;
    var root := Bare("", Dir, Root, "").(children := map["system" := injected]);
    assert Loaded(root);
    PartitionedLoaded(fs, root, |PARTITIONS|);
  }

  method InjectBinaries(system: Node, applets: seq<string>) returns (r: Option<Node>)
    requires NamesMatch(system)
    ensures r == Injected(system, applets)
  {
    if "bin" in system.children && !system.children["bin"].kind.Inter? { return None; }
    var bin := BinOf(system);
    bin := Inserted(bin, Bare("magisk", Reg, Custom, ""));
    bin := Inserted(bin, Bare("magiskinit", Reg, Custom, ""));
    ghost var full := bin;
    for i := 0 to |applets|
      invariant bin == full.(children := Without(full.children, applets[..i]))
    {
      assert applets[..i + 1][..i] == applets[..i];
      bin := bin.(children := bin.children - {applets[i]});
    }
    assert applets[..|applets|] == applets;
    r := Some(system.(children := system.children["bin" := bin]));
  }

  method MovePartitions(fs: FileSystem, root: Node) returns (r: Node)
    requires NamesMatch(root) && "system" in root.children
    ensures r == Partitioned(fs, root, |PARTITIONS|)
  {
    r := root;
    for i := 0 to |PARTITIONS|
      invariant NamesMatch(r) && "system" in r.children && r == Partitioned(fs, root, i)
    {
      var (part, system) := (PARTITIONS[i], r.children["system"]);
      if fs.lstat("/" + part) == Some(Dir) && part in system.children {
        ExtractNames(r, part);
        r := Inserted(Extracted(r, part), ToRoot(system.children[part]));
      }
    }
  }

  /** `magic_mount` up to the mounting itself. */
  method MagicMount(fs: FileSystem, modules: seq<Source>, sbin: bool, applets: seq<string>) returns (r: Assembly)
    ensures var a := Assembled(fs, modules, sbin, applets);
            if a.Tree? then r == Tree(Prepared(fs, "", a.root)) && After(fs, "", a.root, r.root, false)
                && WellHung(fs, "", r.root)
            else r == a
  {
    var system := Bare("system", Dir, Root, "");
    var t := system;
    for i := 0 to |modules|
      invariant NamesMatch(system) && system == CollectAll(t, modules[..i])
    {
      assert modules[..i + 1][..i] == modules[..i];
      var ok;
      system, ok := CollectFiles(system, modules[i].opens, modules[i].listing, modules[i].name);
    }
    assert modules[..|modules|] == modules;
    if !sbin {
      var injected := InjectBinaries(system, applets);
      if injected.None? { return Wrong; }
      system := injected.value;
    }
    if system.children == map[] { return Nothing; }
    var root := Bare("", Dir, Root, "").(children := map["system" := system]);
    var assembled := MovePartitions(fs, root);
    AssembledLoaded(fs, modules, sbin, applets);
    RootPrepared(fs, "", assembled);
    var ok;
    root, ok := Prepare(fs, "", assembled);
    r := Tree(root);
  }
}
