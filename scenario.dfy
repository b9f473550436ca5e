/** A worked run: a root holding `a.txt` and `b.txt`, an empty state and the
    prefix "backup"; then a rerun, a rerun after `a.txt` changed, and a run
    whose first upload raises. */
module Scenario {
  import opened Paths
  import opened FileTree
  import opened Sync

  const X: Bytes := [0x58]
  const Y: Bytes := [0x59]
  const Z: Bytes := [0x5A]

  function Backup(dryRun: bool): Config {
    Config("root", "bucket", "backup", [], dryRun)
  }

  function Tree(a: Bytes): Node {
    Dir("root", [File("a.txt", a), File("b.txt", Y)])
  }

  function Files(a: Bytes): seq<FileEntry> {
    [FileEntry("a.txt", a), FileEntry("b.txt", Y)]
  }

  /** The root has no subdirectory: the walk lists it alone, with both files. */
  lemma TreeWalk(exclude: seq<string>, a: Bytes)
    ensures Walk("root", [], Tree(a), exclude) == [Listing("root", [], [], Files(a))]
  {
    var children := Tree(a).children;
    assert children[1..] == [File("b.txt", Y)] && children[1..][1..] == [];
    assert DirsOf(children[1..][1..]) == [] && FilesOf(children[1..][1..]) == [];
    assert DirsOf(children[1..]) == [] && FilesOf(children[1..]) == [FileEntry("b.txt", Y)];
    assert DirsOf(children) == [];
    assert FilesOf(children) == Files(a);
    assert PruneDirs([], exclude) == [];
    var l := Listing("root", [], [], Files(a));
    assert Walk("root", [], Tree(a), exclude) == [l] + Into("root", [], [], exclude, Tree(a));
  }

  /** The walk of the root hands the loop both files, keyed below "backup". */
  lemma TreeRun(dryRun: bool, a: Bytes)
    ensures Sources(Backup(dryRun), Tree(a)) == [
      Candidate(["a.txt"], "root/a.txt", "backup/a.txt", a),
      Candidate(["b.txt"], "root/b.txt", "backup/b.txt", Y)]
  {
    var cfg := Backup(dryRun);
    var files := Files(a);
    var l := Listing("root", [], [], files);
    TreeWalk(cfg.exclude, a);
    var ls := [l];
    assert ls[..0] == [];
    assert files[..1] == [files[0]] && files[..1][..0] == [];
    assert Render(["a.txt"]) == "a.txt" && Render(["b.txt"]) == "b.txt";
    assert Join("root", "a.txt") == "root/a.txt" && Join("root", "b.txt") == "root/b.txt";
    assert Join("backup", "a.txt") == "backup/a.txt" && Join("backup", "b.txt") == "backup/b.txt";
    assert [] + ["a.txt"] == ["a.txt"] && [] + ["b.txt"] == ["b.txt"];
    assert FileCandidates(cfg, l, files[..1][..0]) == [];
    assert FileCandidates(cfg, l, files[..1]) == [MakeCandidate(cfg, l, files[0])];
    assert FileCandidates(cfg, l, files) == [MakeCandidate(cfg, l, files[0]), MakeCandidate(cfg, l, files[1])];
    assert MakeCandidate(cfg, l, files[0]) == Candidate(["a.txt"], "root/a.txt", "backup/a.txt", a);
    assert MakeCandidate(cfg, l, files[1]) == Candidate(["b.txt"], "root/b.txt", "backup/b.txt", Y);
    assert Candidates(cfg, ls) == Candidates(cfg, []) + FileCandidates(cfg, l, files);
  }

  /** Two steps of the loop over a two-file run. */
  lemma TwoSteps(cfg: Config, hash: Bytes -> string, failing: set<string>, cs: seq<Candidate>, s0: State)
    requires |cs| == 2
    ensures RunAll(cfg, hash, failing, cs, s0)
      == Process(cfg, hash, failing, cs[1], Process(cfg, hash, failing, cs[0], Start(s0)))
  {
    var first := cs[..1];
    assert first[..0] == [] && first[0] == cs[0];
    assert RunAll(cfg, hash, failing, [], s0) == Start(s0);
    assert RunAll(cfg, hash, failing, first, s0) == Process(cfg, hash, failing, cs[0], Start(s0));
  }

  /** The state after the first run: both checksums recorded. */
  function Uploaded(hash: Bytes -> string): State {
    map["root/a.txt" := hash(X), "root/b.txt" := hash(Y)]
  }

  lemma PathsDiffer()
    ensures "root/a.txt" != "root/b.txt"
  {
    assert "root/a.txt"[5] != "root/b.txt"[5];
  }

  /** The first run, from an empty state, uploads both files under "backup"
      and records both checksums. */
  lemma FirstRun(hash: Bytes -> string)
    ensures var r := SyncTree(Backup(false), hash, {}, Tree(X), map[]);
      && r.calls == [Call("root/a.txt", "bucket", "backup/a.txt"), Call("root/b.txt", "bucket", "backup/b.txt")]
      && r.state == Uploaded(hash) && !r.aborted
  {
    var cfg := Backup(false);
    var cs := Sources(cfg, Tree(X));
    TreeRun(false, X);
    TwoSteps(cfg, hash, {}, cs, map[]);
    PathsDiffer();
    var p1 := Process(cfg, hash, {}, cs[0], Start(map[]));
    assert p1.state == map["root/a.txt" := hash(X)] && !p1.aborted;
    assert p1.calls == [Call("root/a.txt", "bucket", "backup/a.txt")];
    assert "root/b.txt" !in p1.state;
  }

  /** Rerunning with no file changed uploads nothing and keeps the state. */
  lemma UnchangedRerun(hash: Bytes -> string)
    ensures var r := SyncTree(Backup(false), hash, {}, Tree(X), Uploaded(hash));
      r.calls == [] && !r.aborted && r.state == Uploaded(hash)
  {
    var cfg := Backup(false);
    var cs := Sources(cfg, Tree(X));
    var s := Uploaded(hash);
    TreeRun(false, X);
    TwoSteps(cfg, hash, {}, cs, s);
    PathsDiffer();
    assert s["root/a.txt"] == hash(X) && s["root/b.txt"] == hash(Y);
    var p1 := Process(cfg, hash, {}, cs[0], Start(s));
    assert p1.calls == [] && p1.state == s && !p1.aborted;
  }

  /** After `a.txt` changes, only it is uploaded again, and only its
      checksum is replaced. */
  lemma ChangedRerun(hash: Bytes -> string)
    requires hash(Z) != hash(X)
    ensures var r := SyncTree(Backup(false), hash, {}, Tree(Z), Uploaded(hash));
      && r.calls == [Call("root/a.txt", "bucket", "backup/a.txt")]
      && !r.aborted && r.state == Uploaded(hash)["root/a.txt" := hash(Z)]
  {
    var cfg := Backup(false);
    var cs := Sources(cfg, Tree(Z));
    var s := Uploaded(hash);
    TreeRun(false, Z);
    TwoSteps(cfg, hash, {}, cs, s);
    PathsDiffer();
    assert s["root/a.txt"] == hash(X) && s["root/b.txt"] == hash(Y);
    var p1 := Process(cfg, hash, {}, cs[0], Start(s));
    assert p1.calls == [Call("root/a.txt", "bucket", "backup/a.txt")] && !p1.aborted;
    assert p1.state["root/b.txt"] == hash(Y);
  }

  /** When the upload of `a.txt` raises, `b.txt` is checksummed by no one and
      uploaded by no one, and the state keeps nothing of the run. */
  lemma FirstUploadRaises(hash: Bytes -> string)
    ensures var r := SyncTree(Backup(false), hash, {"backup/a.txt"}, Tree(X), map[]);
      && r.aborted
      && r.hashed == ["root/a.txt"]
      && r.calls == [Call("root/a.txt", "bucket", "backup/a.txt")]
      && r.state == map[]
  {
    TreeRun(false, X);
    var cfg := Backup(false);
    TwoSteps(cfg, hash, {"backup/a.txt"}, Sources(cfg, Tree(X)), map[]);
  }
}
