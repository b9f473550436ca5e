/** The local directory tree and the top-down walk the upload command runs over
    it: `os.walk(directory)` together with the loop's in-place pruning
    `dirs[:] = [d for d in dirs if d not in exclude_list]`, which keeps the walk
    from ever descending into an excluded directory. */
module FileTree {
  import opened Paths

  type Bytes = seq<bv8>

  datatype Node =
    | File(name: string, content: Bytes)
    | Dir(name: string, children: seq<Node>)

  /** A regular file as a directory listing reports it. */
  datatype FileEntry = FileEntry(name: string, content: Bytes)

  /** One `(root, dirs, files)` triple of the walk, `dirs` as left by the
      pruning; `rel` is the list of directory names from the sync root to
      `root`. */
  datatype Listing = Listing(root: string, rel: seq<string>, dirs: seq<Node>, files: seq<FileEntry>)

  predicate NamesDistinct(ns: seq<Node>) {
    forall i, j :: 0 <= i < j < |ns| ==> ns[i].name != ns[j].name
  }

  predicate EntryNamesDistinct(fs: seq<FileEntry>) {
    forall i, j :: 0 <= i < j < |fs| ==> fs[i].name != fs[j].name
  }

  predicate NoneExcluded(p: seq<string>, exclude: seq<string>) {
    forall k :: 0 <= k < |p| ==> p[k] !in exclude
  }

  /** A tree a file system can hold: every entry has a valid name, and no two
      entries of one directory share a name. The root's own name is not part
      of any path and is left free. */
  ghost predicate WellFormed(d: Node) {
    match d
    case File(_, _) => true
    case Dir(_, cs) =>
      NamesDistinct(cs) && forall c :: c in cs ==> ValidName(c.name) && WellFormed(c)
  }

  lemma DistinctTail(ns: seq<Node>, x: Node, r: seq<Node>)
    requires NamesDistinct(ns) && ns != [] && x == ns[0]
    requires NamesDistinct(r) && forall c :: c in r ==> c in ns[1..]
    ensures NamesDistinct([x] + r)
  {
    var s := [x] + r;
    forall i, j | 0 <= i < j < |s| ensures s[i].name != s[j].name {
      if i == 0 {
        assert s[j] == r[j - 1] && r[j - 1] in r;
        var k :| 0 <= k < |ns[1..]| && ns[1..][k] == s[j];
        assert ns[k + 1] == s[j];
      } else {
        assert s[i] == r[i - 1] && s[j] == r[j - 1];
      }
    }
  }

  /** The subdirectories of a directory, in listing order. */
  function DirsOf(nodes: seq<Node>): seq<Node> {
    if nodes == [] then []
    else if nodes[0].Dir? then [nodes[0]] + DirsOf(nodes[1..])
    else DirsOf(nodes[1..])
  }

  /** The regular files of a directory, in listing order. */
  function FilesOf(nodes: seq<Node>): seq<FileEntry> {
    if nodes == [] then []
    else match nodes[0]
      case File(n, c) => [FileEntry(n, c)] + FilesOf(nodes[1..])
      case Dir(_, _) => FilesOf(nodes[1..])
  }

  /** The directory list after `dirs[:] = [d for d in dirs if d not in exclude_list]`. */
  function PruneDirs(dirs: seq<Node>, exclude: seq<string>): seq<Node> {
    if dirs == [] then []
    else if dirs[0].name !in exclude then [dirs[0]] + PruneDirs(dirs[1..], exclude)
    else PruneDirs(dirs[1..], exclude)
  }

  /** The directories the walk descends into below `children`: exactly the
      subdirectories whose name is not excluded, without repeated names when
      the directory has none. */
  lemma {:induction false} Kept(children: seq<Node>, exclude: seq<string>)
    ensures forall d :: d in PruneDirs(DirsOf(children), exclude) <==>
      d in children && d.Dir? && d.name !in exclude
    ensures NamesDistinct(children) ==> NamesDistinct(PruneDirs(DirsOf(children), exclude))
  {
    DirsOfMembers(children);
    PruneMembers(DirsOf(children), exclude);
  }

  lemma {:induction false} DirsOfMembers(nodes: seq<Node>)
    ensures forall d :: d in DirsOf(nodes) <==> d in nodes && d.Dir?
    ensures NamesDistinct(nodes) ==> NamesDistinct(DirsOf(nodes))
    decreases |nodes|
  {
    if nodes != [] {
      var rest := DirsOf(nodes[1..]);
      DirsOfMembers(nodes[1..]);
      assert nodes == [nodes[0]] + nodes[1..];
      if nodes[0].Dir? && NamesDistinct(nodes) {
        DistinctTail(nodes, nodes[0], rest);
      }
    }
  }

  lemma {:induction false} PruneMembers(dirs: seq<Node>, exclude: seq<string>)
    ensures forall d :: d in PruneDirs(dirs, exclude) <==> d in dirs && d.name !in exclude
    ensures NamesDistinct(dirs) ==> NamesDistinct(PruneDirs(dirs, exclude))
    decreases |dirs|
  {
    if dirs != [] {
      var rest := PruneDirs(dirs[1..], exclude);
      PruneMembers(dirs[1..], exclude);
      assert dirs == [dirs[0]] + dirs[1..];
      if dirs[0].name !in exclude && NamesDistinct(dirs) {
        DistinctTail(dirs, dirs[0], rest);
      }
    }
  }

  /** The files the walk lists for a directory are exactly its regular files. */
  lemma {:induction false} FilesOfMembers(nodes: seq<Node>)
    ensures forall e :: e in FilesOf(nodes) <==> File(e.name, e.content) in nodes
    decreases |nodes|
  {
    if nodes != [] {
      FilesOfMembers(nodes[1..]);
      assert nodes == [nodes[0]] + nodes[1..];
    }
  }

  lemma TailNamesDistinct(nodes: seq<Node>)
    requires nodes != [] && NamesDistinct(nodes)
    ensures NamesDistinct(nodes[1..])
  {
    var tail := nodes[1..];
    forall i, j | 0 <= i < j < |tail| ensures tail[i].name != tail[j].name {
      assert tail[i] == nodes[i + 1] && tail[j] == nodes[j + 1];
    }
  }

  /** No later entry of a directory without repeated names shares the name of its first. */
  lemma FirstNameFresh(nodes: seq<Node>, c: Node)
    requires nodes != [] && NamesDistinct(nodes) && c in nodes[1..]
    ensures c.name != nodes[0].name
  {
    var k :| 0 <= k < |nodes[1..]| && nodes[1..][k] == c;
    assert nodes[k + 1] == c;
  }

  lemma EntryConsDistinct(x: FileEntry, rest: seq<FileEntry>)
    requires EntryNamesDistinct(rest) && forall e :: e in rest ==> e.name != x.name
    ensures EntryNamesDistinct([x] + rest)
  {
    var r := [x] + rest;
    forall i, j | 0 <= i < j < |r| ensures r[i].name != r[j].name {
      assert r[j] == rest[j - 1] && rest[j - 1] in rest;
      if i > 0 {
        assert r[i] == rest[i - 1];
      }
    }
  }

  /** The files the walk lists for a directory without repeated names have
      no repeated names either. */
  lemma {:induction false} FilesOfDistinct(nodes: seq<Node>)
    requires NamesDistinct(nodes)
    ensures EntryNamesDistinct(FilesOf(nodes))
    decreases |nodes|
  {
    if nodes != [] {
      var tail := nodes[1..];
      TailNamesDistinct(nodes);
      FilesOfDistinct(tail);
      if nodes[0].File? {
        FilesOfMembers(tail);
        var rest := FilesOf(tail);
        forall e | e in rest ensures e.name != nodes[0].name {
          FirstNameFresh(nodes, File(e.name, e.content));
        }
        EntryConsDistinct(FileEntry(nodes[0].name, nodes[0].content), rest);
      }
    }
  }

  /** The triples the walk yields for directory `d` reached at `root`: its own
      listing first, then, in order, the walk of every subdirectory the
      pruning kept. A root that is not a directory yields nothing. */
  function Walk(root: string, rel: seq<string>, d: Node, exclude: seq<string>): seq<Listing>
    decreases d, 1
  {
    match d
    case File(_, _) => []
    case Dir(_, children) =>
      var kept := PruneDirs(DirsOf(children), exclude);
      Kept(children, exclude);
      [Listing(root, rel, kept, FilesOf(children))] + Into(root, rel, kept, exclude, d)
  }

  /** The walks of the subdirectories `dirs` of `parent`, one after another. */
  function Into(root: string, rel: seq<string>, dirs: seq<Node>, exclude: seq<string>, ghost parent: Node): seq<Listing>
    requires parent.Dir? && forall c :: c in dirs ==> c in parent.children
    decreases parent, 0, |dirs|
  {
    if dirs == [] then []
    else
      assert dirs[0] in parent.children;
      var n := dirs[0].name;
      Walk(Join(root, n), rel + [n], dirs[0], exclude) + Into(root, rel, dirs[1..], exclude, parent)
  }

  /** `e` is the directory reached from `d` by following the names `p`. */
  ghost predicate DirAt(d: Node, p: seq<string>, e: Node)
    decreases |p|
  {
    d.Dir? && e.Dir? &&
    if p == [] then e == d
    else exists c :: c in d.children && c.Dir? && c.name == p[0] && DirAt(c, p[1..], e)
  }

  /** A regular file with `content` sits at relative path `p` below `d`. */
  ghost predicate FileAt(d: Node, p: seq<string>, content: Bytes) {
    p != [] && exists e :: DirAt(d, p[..|p| - 1], e) && File(p[|p| - 1], content) in e.children
  }

  /** What every listing of `Walk(root, rel, d, exclude)` is: a directory below
      `d` whose path has no excluded name, reached at the joined root string,
      listed with its pruned subdirectories and its files. */
  ghost predicate Below(root: string, rel: seq<string>, d: Node, exclude: seq<string>, l: Listing) {
    |l.rel| >= |rel| && l.rel[..|rel|] == rel &&
    var sub := l.rel[|rel|..];
    l.root == PathOf(root, sub) && NoneExcluded(sub, exclude) &&
    exists e :: DirAt(d, sub, e) && l.files == FilesOf(e.children) &&
      l.dirs == PruneDirs(DirsOf(e.children), exclude)
  }

  /** Soundness of the walk: it only lists directories that exist below the
      root and whose path crosses no excluded name. */
  lemma {:induction false} WalkSound(root: string, rel: seq<string>, d: Node, exclude: seq<string>)
    ensures forall l :: l in Walk(root, rel, d, exclude) ==> Below(root, rel, d, exclude, l)
    decreases d, 1
  {
    if d.Dir? {
      var kept := PruneDirs(DirsOf(d.children), exclude);
      var first := Listing(root, rel, kept, FilesOf(d.children));
      assert first.rel[|rel|..] == [];
      assert DirAt(d, [], d);
      Kept(d.children, exclude);
      IntoSound(root, rel, kept, exclude, d);
    }
  }

  /** A relative path that extends `rel + [n]` extends `rel`, by `n` and the rest. */
  lemma SplitRel(rel: seq<string>, n: string, r: seq<string>)
    requires |r| >= |rel| + 1 && r[..|rel| + 1] == rel + [n]
    ensures r[..|rel|] == rel && r[|rel|..] == [n] + r[|rel| + 1..]
  {
    assert r[..|rel|] == r[..|rel| + 1][..|rel|];
    assert r[|rel|..] == [r[|rel|]] + r[|rel| + 1..];
  }

  /** What a walk of a kept subdirectory lists is below its parent too. */
  lemma BelowChild(root: string, rel: seq<string>, parent: Node, c: Node, exclude: seq<string>, l: Listing)
    requires parent.Dir? && c in parent.children && c.Dir? && c.name !in exclude
    requires Below(Join(root, c.name), rel + [c.name], c, exclude, l)
    ensures Below(root, rel, parent, exclude, l)
  {
    var n := c.name;
    var sub' := l.rel[|rel| + 1..];
    SplitRel(rel, n, l.rel);
    var sub := l.rel[|rel|..];
    assert sub[0] == n && sub[1..] == sub';
    var e :| DirAt(c, sub', e) && l.files == FilesOf(e.children) &&
      l.dirs == PruneDirs(DirsOf(e.children), exclude);
    assert DirAt(parent, sub, e);
    assert PathOf(root, sub) == PathOf(Join(root, n), sub');
  }

  lemma {:induction false} IntoSound(root: string, rel: seq<string>, dirs: seq<Node>, exclude: seq<string>, parent: Node)
    requires parent.Dir? && forall c :: c in dirs ==> c in parent.children && c.Dir? && c.name !in exclude
    ensures forall l :: l in Into(root, rel, dirs, exclude, parent) ==> Below(root, rel, parent, exclude, l)
    decreases parent, 0, |dirs|
  {
    if dirs != [] {
      var c := dirs[0];
      assert c in parent.children;
      var n := c.name;
      WalkSound(Join(root, n), rel + [n], c, exclude);
      IntoSound(root, rel, dirs[1..], exclude, parent);
      forall l | l in Walk(Join(root, n), rel + [n], c, exclude)
        ensures Below(root, rel, parent, exclude, l)
      {
        BelowChild(root, rel, parent, c, exclude, l);
      }
    }
  }

  lemma {:induction false} IntoContains(root: string, rel: seq<string>, dirs: seq<Node>, exclude: seq<string>, parent: Node, i: nat)
    requires parent.Dir? && forall c :: c in dirs ==> c in parent.children
    requires i < |dirs|
    ensures forall l :: l in Walk(Join(root, dirs[i].name), rel + [dirs[i].name], dirs[i], exclude) ==>
      l in Into(root, rel, dirs, exclude, parent)
    decreases |dirs|
  {
    var n := dirs[0].name;
    var head := Walk(Join(root, n), rel + [n], dirs[0], exclude);
    var tail := Into(root, rel, dirs[1..], exclude, parent);
    assert Into(root, rel, dirs, exclude, parent) == head + tail;
    if i > 0 {
      IntoContains(root, rel, dirs[1..], exclude, parent, i - 1);
      assert dirs[1..][i - 1] == dirs[i];
    }
  }

  /** Completeness of the walk: every directory below the root whose path
      crosses no excluded name is listed, with its files. */
  lemma {:induction false} WalkComplete(root: string, rel: seq<string>, d: Node, exclude: seq<string>, p: seq<string>, e: Node)
    requires DirAt(d, p, e) && NoneExcluded(p, exclude)
    ensures exists l :: l in Walk(root, rel, d, exclude) && l.rel == rel + p && l.files == FilesOf(e.children)
    decreases |p|
  {
    var kept := PruneDirs(DirsOf(d.children), exclude);
    Kept(d.children, exclude);
    var w := Walk(root, rel, d, exclude);
    var into := Into(root, rel, kept, exclude, d);
    assert w == [Listing(root, rel, kept, FilesOf(d.children))] + into;
    if p == [] {
      assert w[0].rel == rel + p && w[0].files == FilesOf(e.children);
      assert w[0] in w;
    } else {
      var c :| c in d.children && c.Dir? && c.name == p[0] && DirAt(c, p[1..], e);
      assert p[0] !in exclude;
      assert c in kept;
      var i :| 0 <= i < |kept| && kept[i] == c;
      assert NoneExcluded(p[1..], exclude);
      var sub := Walk(Join(root, c.name), rel + [c.name], c, exclude);
      WalkComplete(Join(root, c.name), rel + [c.name], c, exclude, p[1..], e);
      var l :| l in sub && l.rel == rel + [c.name] + p[1..] && l.files == FilesOf(e.children);
      IntoContains(root, rel, kept, exclude, d, i);
      assert l in into;
      assert l in w;
      ExtendPath(rel, p);
    }
  }

  lemma ExtendPath(rel: seq<string>, p: seq<string>)
    requires p != []
    ensures rel + [p[0]] + p[1..] == rel + p
  {
    assert p == [p[0]] + p[1..];
  }

  /** In a well-formed tree, every directory reached by a path is well formed
      and the path consists of valid names. */
  lemma {:induction false} DirAtWellFormed(d: Node, p: seq<string>, e: Node)
    requires WellFormed(d) && DirAt(d, p, e)
    ensures WellFormed(e) && ValidNames(p)
    decreases |p|
  {
    if p != [] {
      var c :| c in d.children && c.Dir? && c.name == p[0] && DirAt(c, p[1..], e);
      DirAtWellFormed(c, p[1..], e);
      assert p == [p[0]] + p[1..];
    }
  }

  predicate RelsDistinct(ls: seq<Listing>) {
    forall i, j :: 0 <= i < j < |ls| ==> ls[i].rel != ls[j].rel
  }

  lemma RelsDistinctAppend(a: seq<Listing>, b: seq<Listing>)
    requires RelsDistinct(a) && RelsDistinct(b)
    requires forall x, y :: x in a && y in b ==> x.rel != y.rel
    ensures RelsDistinct(a + b)
  {
    var s := a + b;
    forall i, j | 0 <= i < j < |s| ensures s[i].rel != s[j].rel {
      if j < |a| {
        assert s[i] == a[i] && s[j] == a[j];
      } else if i >= |a| {
        assert s[i] == b[i - |a|] && s[j] == b[j - |a|];
      } else {
        assert s[i] in a && s[j] in b;
      }
    }
  }

  /** Every listing below a subdirectory starts with the path of that subdirectory. */
  lemma IntoHeads(root: string, rel: seq<string>, dirs: seq<Node>, exclude: seq<string>, parent: Node)
    requires parent.Dir? && forall c :: c in dirs ==> c in parent.children
    ensures forall l :: l in Into(root, rel, dirs, exclude, parent) ==>
      |l.rel| > |rel| && exists c :: c in dirs && c.name == l.rel[|rel|]
    decreases |dirs|
  {
    if dirs != [] {
      var c := dirs[0];
      WalkSound(Join(root, c.name), rel + [c.name], c, exclude);
      IntoHeads(root, rel, dirs[1..], exclude, parent);
      forall l | l in Walk(Join(root, c.name), rel + [c.name], c, exclude)
        ensures |l.rel| > |rel| && l.rel[|rel|] == c.name
      {
        assert l.rel[..|rel| + 1][|rel|] == (rel + [c.name])[|rel|];
      }
    }
  }

  /** In a well-formed tree the walk lists no directory twice. */
  lemma {:induction false} WalkRelsDistinct(root: string, rel: seq<string>, d: Node, exclude: seq<string>)
    requires WellFormed(d)
    ensures RelsDistinct(Walk(root, rel, d, exclude))
    decreases d, 1
  {
    if d.Dir? {
      var kept := PruneDirs(DirsOf(d.children), exclude);
      Kept(d.children, exclude);
      IntoRelsDistinct(root, rel, kept, exclude, d);
      IntoHeads(root, rel, kept, exclude, d);
      RelsDistinctAppend([Listing(root, rel, kept, FilesOf(d.children))], Into(root, rel, kept, exclude, d));
    }
  }

  lemma {:induction false} IntoRelsDistinct(root: string, rel: seq<string>, dirs: seq<Node>, exclude: seq<string>, parent: Node)
    requires parent.Dir? && NamesDistinct(dirs)
    requires forall c :: c in dirs ==> c in parent.children && WellFormed(c)
    ensures RelsDistinct(Into(root, rel, dirs, exclude, parent))
    decreases parent, 0, |dirs|
  {
    if dirs != [] {
      var c := dirs[0];
      assert c in parent.children;
      var w := Walk(Join(root, c.name), rel + [c.name], c, exclude);
      var rest := Into(root, rel, dirs[1..], exclude, parent);
      WalkRelsDistinct(Join(root, c.name), rel + [c.name], c, exclude);
      IntoRelsDistinct(root, rel, dirs[1..], exclude, parent);
      WalkSound(Join(root, c.name), rel + [c.name], c, exclude);
      IntoHeads(root, rel, dirs[1..], exclude, parent);
      forall x, y | x in w && y in rest ensures x.rel != y.rel {
        assert x.rel[..|rel| + 1][|rel|] == (rel + [c.name])[|rel|];
        var c' :| c' in dirs[1..] && c'.name == y.rel[|rel|];
        var k :| 0 <= k < |dirs[1..]| && dirs[1..][k] == c';
        assert dirs[k + 1] == c';
      }
      RelsDistinctAppend(w, rest);
    }
  }
}
