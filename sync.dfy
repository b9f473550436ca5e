/** The incremental-sync loop of `upload_to_s3` as a specification: the files
    the walk hands to the loop, the per-file skip / upload decision against the
    state map (local path to checksum), and the run over all files, which stops
    at the first `upload_file` call that raises. */
module Sync {
  import opened Paths
  import opened FileTree

  /** The arguments of `upload_to_s3` that the loop reads. */
  datatype Config = Config(directory: string, bucket: string, prefix: string, exclude: seq<string>, dryRun: bool)

  /** A file the loop processes: its relative path as a list of names,
      `local_path`, `s3_key` and the bytes the checksum is computed from. */
  datatype Candidate = Candidate(parts: seq<string>, local: string, key: string, content: Bytes)

  /** One `s3.upload_file(local_path, s3_bucket, s3_key)` call. */
  datatype Call = Call(local: string, bucket: string, key: string)

  type State = map<string, string>

  /** What the loop has done so far: the in-memory state map, the local paths
      checksummed, the upload calls issued, and whether the last one raised. */
  datatype Progress = Progress(state: State, hashed: seq<string>, calls: seq<Call>, aborted: bool)

  function Start(s0: State): Progress {
    Progress(s0, [], [], false)
  }

  /** The file `f` of listing `l`: `local_path = join(root, file)`, the relative
      path below the sync root, and `s3_key = join(s3_prefix, relative_path)`. */
  function MakeCandidate(cfg: Config, l: Listing, f: FileEntry): Candidate {
    var parts := l.rel + [f.name];
    Candidate(parts, Join(l.root, f.name), Join(cfg.prefix, Render(parts)), f.content)
  }

  /** The files of `fs` in listing `l` that pass `if file not in exclude_list`. */
  function FileCandidates(cfg: Config, l: Listing, fs: seq<FileEntry>): seq<Candidate>
    decreases |fs|
  {
    if fs == [] then []
    else
      var f := fs[|fs| - 1];
      FileCandidates(cfg, l, fs[..|fs| - 1]) + (if f.name in cfg.exclude then [] else [MakeCandidate(cfg, l, f)])
  }

  /** The files the nested loops process for the listings `ls`, in order. */
  function Candidates(cfg: Config, ls: seq<Listing>): seq<Candidate>
    decreases |ls|
  {
    if ls == [] then []
    else
      var l := ls[|ls| - 1];
      Candidates(cfg, ls[..|ls| - 1]) + FileCandidates(cfg, l, l.files)
  }

  /** All files one run processes for the tree rooted at `cfg.directory`. */
  function Sources(cfg: Config, tree: Node): seq<Candidate> {
    Candidates(cfg, Walk(cfg.directory, [], tree, cfg.exclude))
  }

  function Locals(cs: seq<Candidate>): (r: seq<string>)
    ensures |r| == |cs| && forall i :: 0 <= i < |cs| ==> r[i] == cs[i].local
    decreases |cs|
  {
    if cs == [] then [] else Locals(cs[..|cs| - 1]) + [cs[|cs| - 1].local]
  }

  predicate LocalsDistinct(cs: seq<Candidate>) {
    forall i, j :: 0 <= i < j < |cs| ==> cs[i].local != cs[j].local
  }

  /** The loop body for one file: checksum it; skip it when the state already
      holds that checksum for its local path; in a dry run only report it;
      otherwise call `upload_file` and, when the call returns, record the
      checksum. A call that raises ends the loop with the state as it was.
      Once the loop has ended nothing more happens. */
  function Process(cfg: Config, hash: Bytes -> string, failing: set<string>, c: Candidate, p: Progress): Progress {
    if p.aborted then p
    else
      var sum := hash(c.content);
      var q := p.(hashed := p.hashed + [c.local]);
      if c.local in p.state && sum == p.state[c.local] then q
      else if cfg.dryRun then q
      else
        var calls := q.calls + [Call(c.local, cfg.bucket, c.key)];
        if c.key in failing then q.(calls := calls, aborted := true)
        else q.(calls := calls, state := p.state[c.local := sum])
  }

  /** The loop over the files `cs`, starting from the loaded state `s0`; the
      upload of a key in `failing` raises. */
  function RunAll(cfg: Config, hash: Bytes -> string, failing: set<string>, cs: seq<Candidate>, s0: State): Progress
    decreases |cs|
  {
    if cs == [] then Start(s0)
    else Process(cfg, hash, failing, cs[|cs| - 1], RunAll(cfg, hash, failing, cs[..|cs| - 1], s0))
  }

  /** The loop over the files `cs`, continuing from progress `p`. */
  function RunFrom(cfg: Config, hash: Bytes -> string, failing: set<string>, p: Progress, cs: seq<Candidate>): Progress
    decreases |cs|
  {
    if cs == [] then p
    else Process(cfg, hash, failing, cs[|cs| - 1], RunFrom(cfg, hash, failing, p, cs[..|cs| - 1]))
  }

  /** One whole run of the loop over the tree. */
  function SyncTree(cfg: Config, hash: Bytes -> string, failing: set<string>, tree: Node, s0: State): Progress {
    RunAll(cfg, hash, failing, Sources(cfg, tree), s0)
  }

  // ---------------------------------------------------------------------
  // Reference definitions the run is compared with

  /** A file needs uploading unless the loaded state holds its checksum. */
  predicate NeedsUpload(hash: Bytes -> string, s0: State, c: Candidate) {
    !(c.local in s0 && s0[c.local] == hash(c.content))
  }

  /** The upload calls a run over `cs` should make, judged against the loaded
      state alone: one per file that needs uploading, in order. */
  function Planned(cfg: Config, hash: Bytes -> string, s0: State, cs: seq<Candidate>): seq<Call>
    decreases |cs|
  {
    if cs == [] then []
    else
      var c := cs[|cs| - 1];
      Planned(cfg, hash, s0, cs[..|cs| - 1]) + (if NeedsUpload(hash, s0, c) then [Call(c.local, cfg.bucket, c.key)] else [])
  }

  /** The loaded state with the checksum of every file of `cs` recorded. */
  function Recorded(hash: Bytes -> string, s0: State, cs: seq<Candidate>): State
    decreases |cs|
  {
    if cs == [] then s0
    else
      var c := cs[|cs| - 1];
      Recorded(hash, s0, cs[..|cs| - 1])[c.local := hash(c.content)]
  }

  // ---------------------------------------------------------------------
  // What the walk hands to the loop

  lemma {:induction false} FileCandidatesMembers(cfg: Config, l: Listing, fs: seq<FileEntry>)
    ensures forall c :: c in FileCandidates(cfg, l, fs) <==>
      exists f :: f in fs && f.name !in cfg.exclude && c == MakeCandidate(cfg, l, f)
    decreases |fs|
  {
    if fs != [] {
      var init := fs[..|fs| - 1];
      FileCandidatesMembers(cfg, l, init);
      assert fs == init + [fs[|fs| - 1]];
    }
  }

  lemma {:induction false} CandidatesMembers(cfg: Config, ls: seq<Listing>)
    ensures forall c :: c in Candidates(cfg, ls) <==>
      exists l, f :: l in ls && f in l.files && f.name !in cfg.exclude && c == MakeCandidate(cfg, l, f)
    decreases |ls|
  {
    if ls != [] {
      var init := ls[..|ls| - 1];
      var l := ls[|ls| - 1];
      CandidatesMembers(cfg, init);
      FileCandidatesMembers(cfg, l, l.files);
      assert ls == init + [l];
    }
  }

  /** A file of a listing of the walk, under a name that is not excluded. */
  lemma ListedFile(cfg: Config, tree: Node, l: Listing, f: FileEntry)
    requires l in Walk(cfg.directory, [], tree, cfg.exclude) && f in l.files && f.name !in cfg.exclude
    ensures var c := MakeCandidate(cfg, l, f);
      && FileAt(tree, c.parts, c.content) && NoneExcluded(c.parts, cfg.exclude)
      && c.local == PathOf(cfg.directory, c.parts)
      && (WellFormed(tree) ==> ValidNames(c.parts))
  {
    var parts := l.rel + [f.name];
    WalkSound(cfg.directory, [], tree, cfg.exclude);
    assert Below(cfg.directory, [], tree, cfg.exclude, l);
    assert l.rel[0..] == l.rel;
    assert l.root == PathOf(cfg.directory, l.rel) && NoneExcluded(l.rel, cfg.exclude);
    var e :| DirAt(tree, l.rel, e) && l.files == FilesOf(e.children);
    FilesOfMembers(e.children);
    assert File(f.name, f.content) in e.children;
    assert parts[..|parts| - 1] == l.rel && parts[|parts| - 1] == f.name;
    assert FileAt(tree, parts, f.content);
    assert NoneExcluded(parts, cfg.exclude) by {
      forall k | 0 <= k < |parts| ensures parts[k] !in cfg.exclude {
        if k < |l.rel| { assert parts[k] == l.rel[k]; }
      }
    }
    PathOfSnoc(cfg.directory, l.rel, f.name);
    if WellFormed(tree) {
      DirAtWellFormed(tree, l.rel, e);
      assert ValidName(f.name);
      forall k | 0 <= k < |parts| ensures ValidName(parts[k]) {
        if k < |l.rel| { assert parts[k] == l.rel[k]; }
      }
    }
  }

  /** Every file the loop processes exists in the tree at its relative path,
      no name on that path is excluded (neither a directory, pruned at the
      walk, nor the file itself, skipped in the loop), its local path is the
      walked root joined with its name, and its key is the prefix joined with
      its relative path. In a well-formed tree the path has valid names. */
  lemma ProcessedFile(cfg: Config, tree: Node, c: Candidate)
    requires c in Sources(cfg, tree)
    ensures FileAt(tree, c.parts, c.content) && NoneExcluded(c.parts, cfg.exclude)
    ensures c.local == PathOf(cfg.directory, c.parts)
    ensures c.key == Join(cfg.prefix, Render(c.parts))
    ensures WellFormed(tree) ==> ValidNames(c.parts)
  {
    var w := Walk(cfg.directory, [], tree, cfg.exclude);
    CandidatesMembers(cfg, w);
    var l, f :| l in w && f in l.files && f.name !in cfg.exclude && c == MakeCandidate(cfg, l, f);
    ListedFile(cfg, tree, l, f);
  }

  /** The key construction of lines 51-53: `local_path` is the directory
      joined with the rendered relative path, and `s3_key` is the prefix
      joined with that same rendered path (taken as what `relpath` returns). */
  lemma CandidateKeys(cfg: Config, tree: Node, c: Candidate)
    requires WellFormed(tree) && c in Sources(cfg, tree)
    ensures c.local == Join(cfg.directory, Render(c.parts))
    ensures c.key == Join(cfg.prefix, Render(c.parts))
  {
    ProcessedFile(cfg, tree, c);
    PathOfIsJoin(cfg.directory, c.parts);
  }

  /** A file of a listing, under a name that is not excluded, is processed. */
  lemma ListingCandidate(cfg: Config, ls: seq<Listing>, l: Listing, f: FileEntry)
    requires l in ls && f in l.files && f.name !in cfg.exclude
    ensures MakeCandidate(cfg, l, f) in Candidates(cfg, ls)
  {
    CandidatesMembers(cfg, ls);
  }

  /** A prefix of a sequence grows by the next element. */
  lemma TakeOneMore<T>(s: seq<T>, i: nat)
    requires i < |s|
    ensures s[..i] + [s[i]] == s[..i + 1]
  {
  }

  /** A file below the root whose path crosses no excluded name is in the
      listing the walk makes of its directory. */
  lemma FileListed(cfg: Config, tree: Node, p: seq<string>, content: Bytes)
    requires FileAt(tree, p, content) && NoneExcluded(p, cfg.exclude)
    ensures exists l :: l in Walk(cfg.directory, [], tree, cfg.exclude) && l.rel == p[..|p| - 1] && FileEntry(p[|p| - 1], content) in l.files
  {
    var dirPath := p[..|p| - 1];
    var e :| DirAt(tree, dirPath, e) && File(p[|p| - 1], content) in e.children;
    assert NoneExcluded(dirPath, cfg.exclude);
    WalkComplete(cfg.directory, [], tree, cfg.exclude, dirPath, e);
    var l :| l in Walk(cfg.directory, [], tree, cfg.exclude) && l.rel == [] + dirPath && l.files == FilesOf(e.children);
    FilesOfMembers(e.children);
    assert l.rel == dirPath;
  }

  /** Every file below the root whose path crosses no excluded name is
      processed; together with `ProcessedFile` this is an if-and-only-if. */
  lemma UnexcludedFileProcessed(cfg: Config, tree: Node, p: seq<string>, content: Bytes)
    requires FileAt(tree, p, content) && NoneExcluded(p, cfg.exclude)
    ensures exists c :: c in Sources(cfg, tree) && c.parts == p && c.content == content
  {
    FileListed(cfg, tree, p, content);
    var w := Walk(cfg.directory, [], tree, cfg.exclude);
    var f := FileEntry(p[|p| - 1], content);
    var l :| l in w && l.rel == p[..|p| - 1] && f in l.files;
    assert f.name == p[|p| - 1] && f.name !in cfg.exclude;
    ListingCandidate(cfg, w, l, f);
    var c := MakeCandidate(cfg, l, f);
    TakeOneMore(p, |p| - 1);
    assert p[..|p|] == p;
    assert c in Sources(cfg, tree) && c.parts == p && c.content == content;
  }

  // ---------------------------------------------------------------------
  // In a well-formed tree no local path is processed twice

  predicate PartsDistinct(cs: seq<Candidate>) {
    forall i, j :: 0 <= i < j < |cs| ==> cs[i].parts != cs[j].parts
  }

  lemma PartsDistinctAppend(a: seq<Candidate>, b: seq<Candidate>)
    requires PartsDistinct(a) && PartsDistinct(b)
    requires forall x, y :: x in a && y in b ==> x.parts != y.parts
    ensures PartsDistinct(a + b)
  {
    var s := a + b;
    forall i, j | 0 <= i < j < |s| ensures s[i].parts != s[j].parts {
      if j < |a| {
        assert s[i] == a[i] && s[j] == a[j];
      } else if i >= |a| {
        assert s[i] == b[i - |a|] && s[j] == b[j - |a|];
      } else {
        assert s[i] in a && s[j] in b;
      }
    }
  }

  lemma {:induction false} FileCandidatesDistinct(cfg: Config, l: Listing, fs: seq<FileEntry>)
    requires EntryNamesDistinct(fs)
    ensures PartsDistinct(FileCandidates(cfg, l, fs))
    decreases |fs|
  {
    if fs != [] {
      var init := fs[..|fs| - 1];
      var f := fs[|fs| - 1];
      var a := FileCandidates(cfg, l, init);
      FileCandidatesDistinct(cfg, l, init);
      FileCandidatesMembers(cfg, l, init);
      if f.name !in cfg.exclude {
        forall x | x in a ensures x.parts != MakeCandidate(cfg, l, f).parts {
          var g :| g in init && g.name !in cfg.exclude && x == MakeCandidate(cfg, l, g);
          var i :| 0 <= i < |init| && init[i] == g;
          assert fs[i] == g;
          assert x.parts[|l.rel|] == g.name;
        }
        PartsDistinctAppend(a, [MakeCandidate(cfg, l, f)]);
      }
    }
  }

  /** A file of the last listing and a file of an earlier one have different
      relative paths, because the listings have different relative paths. */
  lemma LastListingApart(cfg: Config, ls: seq<Listing>, x: Candidate, y: Candidate)
    requires ls != [] && RelsDistinct(ls)
    requires x in Candidates(cfg, ls[..|ls| - 1])
    requires y in FileCandidates(cfg, ls[|ls| - 1], ls[|ls| - 1].files)
    ensures x.parts != y.parts
  {
    var init := ls[..|ls| - 1];
    var l := ls[|ls| - 1];
    CandidatesMembers(cfg, init);
    FileCandidatesMembers(cfg, l, l.files);
    var l1, f1 :| l1 in init && f1 in l1.files && f1.name !in cfg.exclude && x == MakeCandidate(cfg, l1, f1);
    var f2 :| f2 in l.files && f2.name !in cfg.exclude && y == MakeCandidate(cfg, l, f2);
    var i :| 0 <= i < |init| && init[i] == l1;
    assert ls[i] == l1;
    assert x.parts[..|x.parts| - 1] == l1.rel;
    assert y.parts[..|y.parts| - 1] == l.rel;
  }

  lemma {:induction false} CandidatesDistinct(cfg: Config, ls: seq<Listing>)
    requires RelsDistinct(ls) && forall l :: l in ls ==> EntryNamesDistinct(l.files)
    ensures PartsDistinct(Candidates(cfg, ls))
    decreases |ls|
  {
    if ls != [] {
      var init := ls[..|ls| - 1];
      var l := ls[|ls| - 1];
      assert RelsDistinct(init) by {
        forall i, j | 0 <= i < j < |init| ensures init[i].rel != init[j].rel {
          assert init[i] == ls[i] && init[j] == ls[j];
        }
      }
      CandidatesDistinct(cfg, init);
      FileCandidatesDistinct(cfg, l, l.files);
      forall x, y | x in Candidates(cfg, init) && y in FileCandidates(cfg, l, l.files) ensures x.parts != y.parts {
        LastListingApart(cfg, ls, x, y);
      }
      PartsDistinctAppend(Candidates(cfg, init), FileCandidates(cfg, l, l.files));
    }
  }

  /** Distinct files of a well-formed tree have distinct local paths, so the
      state map holds one entry per processed file. */
  lemma SourcesDistinct(cfg: Config, tree: Node)
    requires WellFormed(tree)
    ensures LocalsDistinct(Sources(cfg, tree))
  {
    var w := Walk(cfg.directory, [], tree, cfg.exclude);
    var cs := Sources(cfg, tree);
    WalkRelsDistinct(cfg.directory, [], tree, cfg.exclude);
    WalkSound(cfg.directory, [], tree, cfg.exclude);
    forall l | l in w ensures EntryNamesDistinct(l.files) {
      assert l.rel[0..] == l.rel;
      var e :| DirAt(tree, l.rel, e) && l.files == FilesOf(e.children);
      DirAtWellFormed(tree, l.rel, e);
      FilesOfDistinct(e.children);
    }
    CandidatesDistinct(cfg, w);
    forall i, j | 0 <= i < j < |cs| ensures cs[i].local != cs[j].local {
      ProcessedFile(cfg, tree, cs[i]);
      ProcessedFile(cfg, tree, cs[j]);
      if cs[i].local == cs[j].local {
        PathOfInjective(cfg.directory, cs[i].parts, cs[j].parts);
      }
    }
  }

  // ---------------------------------------------------------------------
  // Properties of the run

  /** A dry run only checksums: it makes no upload call and leaves the state
      map exactly as loaded, so `save_state` writes back what was read. */
  lemma {:induction false} DryRunChangesNothing(cfg: Config, hash: Bytes -> string, failing: set<string>, cs: seq<Candidate>, s0: State)
    requires cfg.dryRun
    ensures RunAll(cfg, hash, failing, cs, s0) == Progress(s0, Locals(cs), [], false)
    decreases |cs|
  {
    if cs != [] {
      DryRunChangesNothing(cfg, hash, failing, cs[..|cs| - 1], s0);
    }
  }

  /** After an upload raised, the remaining files change nothing. */
  lemma {:induction false} AbortedStays(cfg: Config, hash: Bytes -> string, failing: set<string>, a: seq<Candidate>, b: seq<Candidate>, s0: State)
    requires RunAll(cfg, hash, failing, a, s0).aborted
    ensures RunAll(cfg, hash, failing, a + b, s0) == RunAll(cfg, hash, failing, a, s0)
    decreases |b|
  {
    if b == [] {
      assert a + b == a;
    } else {
      var b' := b[..|b| - 1];
      var ab := a + b;
      assert ab[..|ab| - 1] == a + b';
      AbortedStays(cfg, hash, failing, a, b', s0);
      var p := RunAll(cfg, hash, failing, a, s0);
      assert RunAll(cfg, hash, failing, a + b', s0) == p;
      assert RunAll(cfg, hash, failing, ab, s0) == Process(cfg, hash, failing, ab[|ab| - 1], p);
      assert Process(cfg, hash, failing, ab[|ab| - 1], p) == p;
    }
  }

  /** One step of the loop at the end of a run: the unfolding of `RunAll`,
      stated on its own so that the proofs using it stay small. */
  lemma RunAllLast(cfg: Config, hash: Bytes -> string, failing: set<string>, cs: seq<Candidate>, s0: State)
    requires cs != []
    ensures RunAll(cfg, hash, failing, cs, s0) == Process(cfg, hash, failing, cs[|cs| - 1], RunAll(cfg, hash, failing, cs[..|cs| - 1], s0))
  {
  }

  /** Running over `a` and then over `b` is running over `a + b`. */
  lemma {:induction false} RunAllAppend(cfg: Config, hash: Bytes -> string, failing: set<string>, a: seq<Candidate>, b: seq<Candidate>, s0: State)
    ensures RunAll(cfg, hash, failing, a + b, s0) == RunFrom(cfg, hash, failing, RunAll(cfg, hash, failing, a, s0), b)
    decreases |b|
  {
    if b == [] {
      assert a + b == a;
    } else {
      var b' := b[..|b| - 1];
      var x := b[|b| - 1];
      var ab := a + b;
      assert ab[..|ab| - 1] == a + b';
      assert ab[|ab| - 1] == x;
      RunAllAppend(cfg, hash, failing, a, b', s0);
      RunAllLast(cfg, hash, failing, ab, s0);
      var pa := RunAll(cfg, hash, failing, a, s0);
      assert RunFrom(cfg, hash, failing, pa, b) == Process(cfg, hash, failing, x, RunFrom(cfg, hash, failing, pa, b'));
    }
  }

  /** Once a run has stopped, the files that follow change nothing. */
  lemma {:induction false} RunFromAborted(cfg: Config, hash: Bytes -> string, failing: set<string>, p: Progress, a: seq<Candidate>, b: seq<Candidate>)
    requires RunFrom(cfg, hash, failing, p, a).aborted
    ensures RunFrom(cfg, hash, failing, p, a + b) == RunFrom(cfg, hash, failing, p, a)
    decreases |b|
  {
    if b == [] {
      assert a + b == a;
    } else {
      var b' := b[..|b| - 1];
      var ab := a + b;
      assert ab[..|ab| - 1] == a + b';
      RunFromAborted(cfg, hash, failing, p, a, b');
    }
  }

  function CalledLocals(calls: seq<Call>): set<string> {
    set i | 0 <= i < |calls| :: calls[i].local
  }

  /** One step of the loop checksums at most its own file, calls
      `upload_file` at most for it, and changes the state at most there. */
  lemma ProcessTouches(cfg: Config, hash: Bytes -> string, failing: set<string>, c: Candidate, p: Progress)
    ensures var q := Process(cfg, hash, failing, c, p);
      && (q.hashed == p.hashed || q.hashed == p.hashed + [c.local])
      && (q.calls == p.calls || q.calls == p.calls + [Call(c.local, cfg.bucket, c.key)])
      && (q.state == p.state || (q.state == p.state[c.local := hash(c.content)] && q.calls == p.calls + [Call(c.local, cfg.bucket, c.key)]))
  {
  }

  /** The run only checksums and uploads files it was given, and the only
      entries of the state map that change are those of files it called
      `upload_file` for; no entry is ever removed. */
  lemma {:induction false} RunTouchesOnlyItsFiles(cfg: Config, hash: Bytes -> string, failing: set<string>, cs: seq<Candidate>, s0: State)
    ensures var r := RunAll(cfg, hash, failing, cs, s0);
      && (forall i :: 0 <= i < |r.hashed| ==> r.hashed[i] in Locals(cs))
      && (forall i :: 0 <= i < |r.calls| ==> exists c :: c in cs && r.calls[i] == Call(c.local, cfg.bucket, c.key))
      && s0.Keys <= r.state.Keys
      && forall x :: x !in CalledLocals(r.calls) ==> (x in r.state <==> x in s0) && (x in s0 ==> r.state[x] == s0[x])
    decreases |cs|
  {
    if cs != [] {
      var init := cs[..|cs| - 1];
      var c := cs[|cs| - 1];
      var p := RunAll(cfg, hash, failing, init, s0);
      var r := RunAll(cfg, hash, failing, cs, s0);
      RunTouchesOnlyItsFiles(cfg, hash, failing, init, s0);
      assert r == Process(cfg, hash, failing, c, p);
      ProcessTouches(cfg, hash, failing, c, p);
      assert Locals(cs) == Locals(init) + [c.local];
      assert c in cs;
      forall i | 0 <= i < |r.hashed| ensures r.hashed[i] in Locals(cs) {
        if i < |p.hashed| {
          assert r.hashed[i] == p.hashed[i];
        }
      }
      forall i | 0 <= i < |r.calls| ensures exists c' :: c' in cs && r.calls[i] == Call(c'.local, cfg.bucket, c'.key) {
        if i < |p.calls| {
          assert r.calls[i] == p.calls[i];
          var c' :| c' in init && p.calls[i] == Call(c'.local, cfg.bucket, c'.key);
          assert c' in cs;
        } else {
          assert r.calls[i] == Call(c.local, cfg.bucket, c.key);
        }
      }
      forall x | x in CalledLocals(p.calls) ensures x in CalledLocals(r.calls) {
        var i :| 0 <= i < |p.calls| && p.calls[i].local == x;
        assert r.calls[i] == p.calls[i];
      }
      if r.state != p.state {
        assert r.calls[|p.calls|].local == c.local;
        assert c.local in CalledLocals(r.calls);
      }
    }
  }

  /** The recorded state is the loaded one everywhere but at the given files. */
  lemma {:induction false} RecordedElsewhere(hash: Bytes -> string, s0: State, cs: seq<Candidate>, x: string)
    requires x !in Locals(cs)
    ensures (x in Recorded(hash, s0, cs) <==> x in s0)
    ensures x in s0 ==> Recorded(hash, s0, cs)[x] == s0[x]
    decreases |cs|
  {
    if cs != [] {
      assert Locals(cs) == Locals(cs[..|cs| - 1]) + [cs[|cs| - 1].local];
      RecordedElsewhere(hash, s0, cs[..|cs| - 1], x);
    }
  }

  /** With one file per local path, each file's entry holds its checksum. */
  lemma {:induction false} RecordedAt(hash: Bytes -> string, s0: State, cs: seq<Candidate>, i: nat)
    requires LocalsDistinct(cs) && i < |cs|
    ensures cs[i].local in Recorded(hash, s0, cs)
    ensures Recorded(hash, s0, cs)[cs[i].local] == hash(cs[i].content)
    decreases |cs|
  {
    if i < |cs| - 1 {
      RecordedAt(hash, s0, cs[..|cs| - 1], i);
    }
  }

  /** Recording checksums the state already holds changes nothing. */
  lemma {:induction false} RecordedIdempotent(hash: Bytes -> string, s: State, cs: seq<Candidate>)
    requires forall c :: c in cs ==> c.local in s && s[c.local] == hash(c.content)
    ensures Recorded(hash, s, cs) == s
    decreases |cs|
  {
    if cs != [] {
      RecordedIdempotent(hash, s, cs[..|cs| - 1]);
      assert cs[|cs| - 1] in cs;
    }
  }

  /** No file needs uploading when the state holds every checksum. */
  lemma {:induction false} NothingPlanned(cfg: Config, hash: Bytes -> string, s: State, cs: seq<Candidate>)
    requires forall c :: c in cs ==> !NeedsUpload(hash, s, c)
    ensures Planned(cfg, hash, s, cs) == []
    decreases |cs|
  {
    if cs != [] {
      NothingPlanned(cfg, hash, s, cs[..|cs| - 1]);
      assert cs[|cs| - 1] in cs;
    }
  }

  /** The shape of a real run over `cs` from the loaded state `s0` that has
      checksummed the first `k` files: exactly those of them that need
      uploading against `s0` were uploaded, in order. Without a raise, every
      file was processed and each one's checksum recorded. With one, it was
      the last upload, of the k-th file, whose key is failing, and only the
      files before it are recorded; every earlier upload returned. */
  ghost predicate Shaped(cfg: Config, hash: Bytes -> string, failing: set<string>, cs: seq<Candidate>, s0: State, r: Progress) {
    var k := |r.hashed|;
    && k <= |cs| && r.hashed == Locals(cs[..k])
    && r.calls == Planned(cfg, hash, s0, cs[..k])
    && (!r.aborted ==> k == |cs| && r.state == Recorded(hash, s0, cs))
    && (r.aborted ==> 0 < k && r.state == Recorded(hash, s0, cs[..k - 1])
                      && r.calls != [] && r.calls[|r.calls| - 1] == Call(cs[k - 1].local, cfg.bucket, cs[k - 1].key)
                      && cs[k - 1].key in failing)
    && forall i :: 0 <= i < |r.calls| - (if r.aborted then 1 else 0) ==> r.calls[i].key !in failing
  }

  /** A stopped run keeps its shape when more files follow the one that raised. */
  lemma ShapedLonger(cfg: Config, hash: Bytes -> string, failing: set<string>, init: seq<Candidate>, cs: seq<Candidate>, s0: State, r: Progress)
    requires r.aborted && Shaped(cfg, hash, failing, init, s0, r)
    requires |init| <= |cs| && init == cs[..|init|]
    ensures Shaped(cfg, hash, failing, cs, s0, r)
  {
    var k := |r.hashed|;
    assert cs[..k] == init[..k];
    assert cs[..k - 1] == init[..k - 1];
    assert cs[k - 1] == init[k - 1];
  }

  lemma ShapedAfterAbort(cfg: Config, hash: Bytes -> string, failing: set<string>, cs: seq<Candidate>, s0: State)
    requires cs != []
    requires var p := RunAll(cfg, hash, failing, cs[..|cs| - 1], s0);
      p.aborted && Shaped(cfg, hash, failing, cs[..|cs| - 1], s0, p)
    ensures Shaped(cfg, hash, failing, cs, s0, RunAll(cfg, hash, failing, cs, s0))
  {
    var init := cs[..|cs| - 1];
    var p := RunAll(cfg, hash, failing, init, s0);
    RunAllLast(cfg, hash, failing, cs, s0);
    assert RunAll(cfg, hash, failing, cs, s0) == p;
    ShapedLonger(cfg, hash, failing, init, cs, s0, p);
  }

  /** The loop over all but the last file of `cs` ran to its end in the shape
      `Shaped` describes. */
  ghost predicate StepReady(cfg: Config, hash: Bytes -> string, failing: set<string>, cs: seq<Candidate>, s0: State) {
    cs != [] && !cfg.dryRun && LocalsDistinct(cs) &&
    var p := RunAll(cfg, hash, failing, cs[..|cs| - 1], s0);
    !p.aborted && Shaped(cfg, hash, failing, cs[..|cs| - 1], s0, p)
  }

  /** Before the last file the run has checksummed, called and recorded
      exactly the earlier files; with distinct local paths the state it sees
      at the last file is still the loaded one, so its decision is `NeedsUpload`. */
  lemma StepBasics(cfg: Config, hash: Bytes -> string, failing: set<string>, cs: seq<Candidate>, s0: State)
    requires StepReady(cfg, hash, failing, cs, s0)
    ensures var init := cs[..|cs| - 1];
      var c := cs[|cs| - 1];
      var p := RunAll(cfg, hash, failing, init, s0);
      && RunAll(cfg, hash, failing, cs, s0) == Process(cfg, hash, failing, c, p)
      && p.hashed == Locals(init) && p.state == Recorded(hash, s0, init)
      && p.calls == Planned(cfg, hash, s0, init)
      && (forall i :: 0 <= i < |p.calls| ==> p.calls[i].key !in failing)
      && (c.local in p.state && p.state[c.local] == hash(c.content)) == !NeedsUpload(hash, s0, c)
      && Locals(cs) == Locals(init) + [c.local]
      && cs[..|cs|] == cs
  {
    var init := cs[..|cs| - 1];
    var c := cs[|cs| - 1];
    assert init[..|init|] == init;
    forall j | 0 <= j < |init| ensures Locals(init)[j] != c.local {
      assert init[j] == cs[j];
    }
    RecordedElsewhere(hash, s0, init, c.local);
  }

  lemma ShapedAfterSkip(cfg: Config, hash: Bytes -> string, failing: set<string>, cs: seq<Candidate>, s0: State)
    requires StepReady(cfg, hash, failing, cs, s0) && !NeedsUpload(hash, s0, cs[|cs| - 1])
    ensures Shaped(cfg, hash, failing, cs, s0, RunAll(cfg, hash, failing, cs, s0))
  {
    StepBasics(cfg, hash, failing, cs, s0);
    var c := cs[|cs| - 1];
    var s := Recorded(hash, s0, cs[..|cs| - 1]);
    assert s[c.local := hash(c.content)] == s;
  }

  lemma ShapedAfterRaise(cfg: Config, hash: Bytes -> string, failing: set<string>, cs: seq<Candidate>, s0: State)
    requires StepReady(cfg, hash, failing, cs, s0) && NeedsUpload(hash, s0, cs[|cs| - 1]) && cs[|cs| - 1].key in failing
    ensures Shaped(cfg, hash, failing, cs, s0, RunAll(cfg, hash, failing, cs, s0))
  {
    StepBasics(cfg, hash, failing, cs, s0);
  }

  lemma ShapedAfterUpload(cfg: Config, hash: Bytes -> string, failing: set<string>, cs: seq<Candidate>, s0: State)
    requires StepReady(cfg, hash, failing, cs, s0) && NeedsUpload(hash, s0, cs[|cs| - 1]) && cs[|cs| - 1].key !in failing
    ensures Shaped(cfg, hash, failing, cs, s0, RunAll(cfg, hash, failing, cs, s0))
  {
    StepBasics(cfg, hash, failing, cs, s0);
  }

  lemma {:induction false} RunShape(cfg: Config, hash: Bytes -> string, failing: set<string>, cs: seq<Candidate>, s0: State)
    requires !cfg.dryRun && LocalsDistinct(cs)
    ensures Shaped(cfg, hash, failing, cs, s0, RunAll(cfg, hash, failing, cs, s0))
    decreases |cs|
  {
    if cs != [] {
      var init := cs[..|cs| - 1];
      RunShape(cfg, hash, failing, init, s0);
      if RunAll(cfg, hash, failing, init, s0).aborted {
        ShapedAfterAbort(cfg, hash, failing, cs, s0);
      } else if !NeedsUpload(hash, s0, cs[|cs| - 1]) {
        ShapedAfterSkip(cfg, hash, failing, cs, s0);
      } else if cs[|cs| - 1].key in failing {
        ShapedAfterRaise(cfg, hash, failing, cs, s0);
      } else {
        ShapedAfterUpload(cfg, hash, failing, cs, s0);
      }
    }
  }

  /** A real run that did not raise uploaded exactly the new and changed
      files (a file whose checksum matches the loaded state is skipped) and
      leaves every processed file recorded with its checksum. */
  lemma CompletedRun(cfg: Config, hash: Bytes -> string, failing: set<string>, tree: Node, s0: State)
    requires WellFormed(tree) && !cfg.dryRun
    requires !SyncTree(cfg, hash, failing, tree, s0).aborted
    ensures var cs := Sources(cfg, tree);
      var r := SyncTree(cfg, hash, failing, tree, s0);
      && r.calls == Planned(cfg, hash, s0, cs)
      && r.state == Recorded(hash, s0, cs)
      && forall i :: 0 <= i < |cs| ==> cs[i].local in r.state && r.state[cs[i].local] == hash(cs[i].content)
  {
    var cs := Sources(cfg, tree);
    SourcesDistinct(cfg, tree);
    RunShape(cfg, hash, failing, cs, s0);
    assert cs[..|cs|] == cs;
    forall i | 0 <= i < |cs| ensures cs[i].local in Recorded(hash, s0, cs) && Recorded(hash, s0, cs)[cs[i].local] == hash(cs[i].content) {
      RecordedAt(hash, s0, cs, i);
    }
  }

  /** Running again over unchanged files after a run that did not raise makes
      no upload call, cannot raise, and leaves the state map as it was. */
  lemma RerunUploadsNothing(cfg: Config, hash: Bytes -> string, failing: set<string>, failing': set<string>, tree: Node, s0: State)
    requires WellFormed(tree) && !cfg.dryRun
    requires !SyncTree(cfg, hash, failing, tree, s0).aborted
    ensures var s1 := SyncTree(cfg, hash, failing, tree, s0).state;
      var r := SyncTree(cfg, hash, failing', tree, s1);
      r.calls == [] && !r.aborted && r.state == s1
  {
    var cs := Sources(cfg, tree);
    var s1 := SyncTree(cfg, hash, failing, tree, s0).state;
    CompletedRun(cfg, hash, failing, tree, s0);
    SourcesDistinct(cfg, tree);
    forall c | c in cs ensures c.local in s1 && s1[c.local] == hash(c.content) {
      var i :| 0 <= i < |cs| && cs[i] == c;
    }
    var r := RunAll(cfg, hash, failing', cs, s1);
    RunShape(cfg, hash, failing', cs, s1);
    var k := |r.hashed|;
    forall c | c in cs[..k] ensures !NeedsUpload(hash, s1, c) {
      assert c in cs;
    }
    NothingPlanned(cfg, hash, s1, cs[..k]);
    assert r.calls == [];
    assert cs[..|cs|] == cs;
    RecordedIdempotent(hash, s1, cs);
  }

  /** The sequel of an upload that raised: the files after it are never
      checksummed, its own checksum is not recorded, and only the files
      before it are. */
  lemma FailedUploadStopsRun(cfg: Config, hash: Bytes -> string, failing: set<string>, tree: Node, s0: State)
    requires WellFormed(tree) && !cfg.dryRun
    requires SyncTree(cfg, hash, failing, tree, s0).aborted
    ensures var cs := Sources(cfg, tree);
      var r := SyncTree(cfg, hash, failing, tree, s0);
      var k := |r.hashed|;
      && 0 < k <= |cs| && r.hashed == Locals(cs[..k])
      && cs[k - 1].key in failing
      && r.calls != [] && r.calls[|r.calls| - 1] == Call(cs[k - 1].local, cfg.bucket, cs[k - 1].key)
      && r.state == Recorded(hash, s0, cs[..k - 1])
      && (cs[k - 1].local in r.state <==> cs[k - 1].local in s0)
      && (cs[k - 1].local in s0 ==> r.state[cs[k - 1].local] == s0[cs[k - 1].local])
  {
    var cs := Sources(cfg, tree);
    var r := SyncTree(cfg, hash, failing, tree, s0);
    SourcesDistinct(cfg, tree);
    RunShape(cfg, hash, failing, cs, s0);
    var k := |r.hashed|;
    var before := cs[..k - 1];
    forall j | 0 <= j < |before| ensures Locals(before)[j] != cs[k - 1].local {
      assert before[j] == cs[j];
    }
    RecordedElsewhere(hash, s0, cs[..k - 1], cs[k - 1].local);
  }

  /** A file or directory whose path below the root crosses an excluded name
      is never touched: its local path is not checksummed, not uploaded, and
      its entry in the state map keeps its loaded value, in a dry run as in a
      real one and whatever the uploads do. */
  lemma ExcludedPathUntouched(cfg: Config, hash: Bytes -> string, failing: set<string>, tree: Node, s0: State, p: seq<string>)
    requires WellFormed(tree) && p != [] && ValidNames(p) && !NoneExcluded(p, cfg.exclude)
    ensures var x := Join(cfg.directory, Render(p));
      var r := SyncTree(cfg, hash, failing, tree, s0);
      && x !in r.hashed
      && (forall i :: 0 <= i < |r.calls| ==> r.calls[i].local != x)
      && (x in r.state <==> x in s0)
      && (x in s0 ==> r.state[x] == s0[x])
  {
    var x := Join(cfg.directory, Render(p));
    var cs := Sources(cfg, tree);
    var r := RunAll(cfg, hash, failing, cs, s0);
    PathOfIsJoin(cfg.directory, p);
    forall c | c in cs ensures c.local != x {
      ProcessedFile(cfg, tree, c);
      if c.local == x {
        PathOfInjective(cfg.directory, c.parts, p);
      }
    }
    RunTouchesOnlyItsFiles(cfg, hash, failing, cs, s0);
    forall i | 0 <= i < |r.hashed| ensures r.hashed[i] != x {
      var j :| 0 <= j < |cs| && Locals(cs)[j] == r.hashed[i];
      assert cs[j] in cs;
    }
    forall i | 0 <= i < |r.calls| ensures r.calls[i].local != x {
      var c :| c in cs && r.calls[i] == Call(c.local, cfg.bucket, c.key);
    }
    assert x !in CalledLocals(r.calls);
  }
}
