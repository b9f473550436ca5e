/** `upload_to_s3` itself: the argument check, the confirmation, loading the
    state map, the nested loops over the walk and its files that decide per
    file, and the single `save_state` at the end. The state file and the S3
    client are objects whose effects are recorded; the checksum is a parameter. */
module Upload {
  import opened Paths
  import opened FileTree
  import opened Sync

  /** One access to the state file. */
  datatype StateAccess = Loaded | Saved(state: State)

  /** The state file read by `load_state` and written by `save_state`. */
  class StateStore {
    var saved: State
    ghost var accesses: seq<StateAccess>

    constructor (initial: State)
      ensures saved == initial && accesses == []
    {
      saved := initial;
      accesses := [];
    }

    method Load() returns (s: State)
      modifies this
      ensures s == saved && saved == old(saved)
      ensures accesses == old(accesses) + [Loaded]
    {
      s := saved;
      accesses := accesses + [Loaded];
    }

    method Save(s: State)
      modifies this
      ensures saved == s
      ensures accesses == old(accesses) + [Saved(s)]
    {
      saved := s;
      accesses := accesses + [Saved(s)];
    }
  }

  /** The client returned by `boto3.client('s3')`. Its `upload_file` raises
      one of the two caught errors, BotoCoreError or NoCredentialsError, for
      the keys in `failing` and returns for every other key; every call is
      recorded. Errors of any other class are not part of this model. */
  class S3Client {
    const failing: set<string>
    var calls: seq<Call>

    constructor (failing: set<string>)
      ensures this.failing == failing && calls == []
    {
      this.failing := failing;
      calls := [];
    }

    method UploadFile(local: string, bucket: string, key: string) returns (ok: bool)
      modifies this
      ensures calls == old(calls) + [Call(local, bucket, key)]
      ensures ok == (key !in failing)
    {
      calls := calls + [Call(local, bucket, key)];
      ok := key !in failing;
    }
  }

  /** How `upload_to_s3` ends. */
  datatype Outcome =
    | MissingArguments  // bucket or prefix empty: message, exit status 1
    | Cancelled         // the answer to the prompt was not "yes"
    | SetupFailed       // `boto3.client('s3')` raised: error printed
    | UploadFailed      // an `upload_file` call raised a caught error: error printed
    | Completed         // every file processed and the state saved

  /** The process exit status: only the argument check calls `sys.exit(1)`;
      every other ending modelled here, including the two caught errors,
      returns normally. */
  function ExitStatus(o: Outcome): (status: int)
    ensures status != 0 <==> o == MissingArguments
  {
    if o == MissingArguments then 1 else 0
  }

  predicate ArgumentsGiven(cfg: Config) {
    cfg.bucket != [] && cfg.prefix != []
  }

  lemma {:induction false} FileCandidatesPrefix(cfg: Config, l: Listing, fs: seq<FileEntry>, j: nat)
    requires j <= |fs|
    ensures FileCandidates(cfg, l, fs[..j]) <= FileCandidates(cfg, l, fs)
    decreases |fs|
  {
    if j < |fs| {
      var init := fs[..|fs| - 1];
      assert init[..j] == fs[..j];
      FileCandidatesPrefix(cfg, l, init, j);
    } else {
      assert fs[..j] == fs;
    }
  }

  lemma {:induction false} CandidatesPrefix(cfg: Config, ls: seq<Listing>, i: nat)
    requires i <= |ls|
    ensures Candidates(cfg, ls[..i]) <= Candidates(cfg, ls)
    decreases |ls|
  {
    if i < |ls| {
      var init := ls[..|ls| - 1];
      assert init[..i] == ls[..i];
      CandidatesPrefix(cfg, init, i);
    } else {
      assert ls[..i] == ls;
    }
  }

  /** One more file of a listing: the run takes one more step, unless the
      file's name is excluded. */
  lemma FileStep(cfg: Config, hash: Bytes -> string, failing: set<string>, l: Listing, j: nat, p: Progress)
    requires j < |l.files|
    ensures var f := l.files[j];
      var q := RunFrom(cfg, hash, failing, p, FileCandidates(cfg, l, l.files[..j]));
      RunFrom(cfg, hash, failing, p, FileCandidates(cfg, l, l.files[..j + 1]))
      == if f.name in cfg.exclude then q else Process(cfg, hash, failing, MakeCandidate(cfg, l, f), q)
  {
    var f := l.files[j];
    var done := FileCandidates(cfg, l, l.files[..j]);
    assert l.files[..j + 1][..j] == l.files[..j];
    if f.name in cfg.exclude {
      assert done + [] == done;
    } else {
      var c := MakeCandidate(cfg, l, f);
      assert (done + [c])[..|done|] == done;
    }
  }

  /** A raise in a listing ends the run over that listing. */
  lemma FileRaise(cfg: Config, hash: Bytes -> string, failing: set<string>, l: Listing, j: nat, p: Progress)
    requires j <= |l.files|
    requires RunFrom(cfg, hash, failing, p, FileCandidates(cfg, l, l.files[..j])).aborted
    ensures RunFrom(cfg, hash, failing, p, FileCandidates(cfg, l, l.files))
      == RunFrom(cfg, hash, failing, p, FileCandidates(cfg, l, l.files[..j]))
  {
    var done := FileCandidates(cfg, l, l.files[..j]);
    var all := FileCandidates(cfg, l, l.files);
    FileCandidatesPrefix(cfg, l, l.files, j);
    assert all == done + all[|done|..];
    RunFromAborted(cfg, hash, failing, p, done, all[|done|..]);
  }

  /** One more listing: the run continues over its files. */
  lemma ListingStep(cfg: Config, hash: Bytes -> string, failing: set<string>, done: seq<Listing>, l: Listing, s0: State)
    ensures RunAll(cfg, hash, failing, Candidates(cfg, done + [l]), s0)
      == RunFrom(cfg, hash, failing, RunAll(cfg, hash, failing, Candidates(cfg, done), s0), FileCandidates(cfg, l, l.files))
  {
    assert (done + [l])[..|done|] == done;
    RunAllAppend(cfg, hash, failing, Candidates(cfg, done), FileCandidates(cfg, l, l.files), s0);
  }

  /** A raise ends the run: the listings that follow change nothing. */
  lemma ListingRaise(cfg: Config, hash: Bytes -> string, failing: set<string>, ls: seq<Listing>, i: nat, s0: State)
    requires i <= |ls|
    requires RunAll(cfg, hash, failing, Candidates(cfg, ls[..i]), s0).aborted
    ensures RunAll(cfg, hash, failing, Candidates(cfg, ls), s0) == RunAll(cfg, hash, failing, Candidates(cfg, ls[..i]), s0)
  {
    var done := Candidates(cfg, ls[..i]);
    var all := Candidates(cfg, ls);
    CandidatesPrefix(cfg, ls, i);
    assert all == done + all[|done|..];
    AbortedStays(cfg, hash, failing, done, all[|done|..], s0);
  }

  /** The loop body for a file whose name is not excluded: build
      `local_path`, `relative_path` and `s3_key`, checksum the file, skip it
      when the state holds that checksum, only report it in a dry run, and
      otherwise upload it and record the checksum once `upload_file` returns.
      `p` is what the loop has done so far. */
  method SyncFile(cfg: Config, hash: Bytes -> string, l: Listing, file: FileEntry, client: S3Client,
                  state: State, ghost p: Progress, ghost calls0: seq<Call>)
    returns (state': State, ok: bool, ghost hashed: seq<string>)
    requires !p.aborted && p.state == state && client.calls == calls0 + p.calls
    modifies client
    ensures var q := Process(cfg, hash, client.failing, MakeCandidate(cfg, l, file), p);
      && ok == !q.aborted && state' == q.state && hashed == q.hashed
      && client.calls == calls0 + q.calls
  {
    var localPath := Join(l.root, file.name);
    var relativePath := Render(l.rel + [file.name]);
    var key := Join(cfg.prefix, relativePath);
    var checksum := hash(file.content);
    hashed := p.hashed + [localPath];
    state' := state;
    ok := true;
    if localPath in state && checksum == state[localPath] {
      // already uploaded and unchanged: skipped
    } else if cfg.dryRun {
      // only reported
    } else {
      ghost var call := Call(localPath, cfg.bucket, key);
      assert calls0 + (p.calls + [call]) == client.calls + [call];
      ok := client.UploadFile(localPath, cfg.bucket, key);
      if ok {
        state' := state[localPath := checksum];
      }
    }
  }

  /** The inner loop over the files of one listing of the walk, skipping
      excluded names; it stops at the first `upload_file` call that raises. */
  method SyncListing(cfg: Config, hash: Bytes -> string, l: Listing, client: S3Client,
                     state: State, ghost p: Progress, ghost calls0: seq<Call>)
    returns (state': State, ok: bool, ghost hashed: seq<string>)
    requires !p.aborted && p.state == state && client.calls == calls0 + p.calls
    modifies client
    ensures var q := RunFrom(cfg, hash, client.failing, p, FileCandidates(cfg, l, l.files));
      && ok == !q.aborted && state' == q.state && hashed == q.hashed
      && client.calls == calls0 + q.calls
  {
    state' := state;
    ok := true;
    hashed := p.hashed;
    ghost var progress := p;
    var j := 0;
    assert l.files[..0] == [];
    while j < |l.files|
      invariant 0 <= j <= |l.files|
      invariant progress == RunFrom(cfg, hash, client.failing, p, FileCandidates(cfg, l, l.files[..j]))
      invariant !progress.aborted && progress.state == state' && progress.hashed == hashed
      invariant client.calls == calls0 + progress.calls
    {
      var file := l.files[j];
      FileStep(cfg, hash, client.failing, l, j, p);
      if file.name !in cfg.exclude {
        state', ok, hashed := SyncFile(cfg, hash, l, file, client, state', progress, calls0);
        progress := Process(cfg, hash, client.failing, MakeCandidate(cfg, l, file), progress);
        if !ok {
          FileRaise(cfg, hash, client.failing, l, j + 1, p);
          return;
        }
      }
      j := j + 1;
    }
    assert l.files[..j] == l.files;
  }

  /** The `try` block of `upload_to_s3` once the client exists: walk the tree
      top-down, pruning excluded directory names, run the loop over each
      listing's files, and save the state map once at the end; a raise from
      `upload_file` leaves the saved state as it was. `state` is the map the
      caller loaded from `store`; the method does not depend on that. */
  method SyncAndSave(cfg: Config, tree: Node, hash: Bytes -> string, store: StateStore, client: S3Client, state: State)
    returns (outcome: Outcome, ghost hashed: seq<string>)
    modifies store, client
    ensures var r := SyncTree(cfg, hash, client.failing, tree, state);
      && hashed == r.hashed
      && client.calls == old(client.calls) + r.calls
      && (r.aborted ==> outcome == UploadFailed && unchanged(store))
      && (!r.aborted ==> outcome == Completed && store.saved == r.state
                         && store.accesses == old(store.accesses) + [Saved(r.state)])
  {
    ghost var calls0 := client.calls;
    var listings := Walk(cfg.directory, [], tree, cfg.exclude);
    ghost var progress := Start(state);
    ghost var done: seq<Listing> := [];
    var current := state;
    hashed := [];
    var i := 0;
    while i < |listings|
      invariant 0 <= i <= |listings| && done == listings[..i]
      invariant unchanged(store)
      invariant progress == RunAll(cfg, hash, client.failing, Candidates(cfg, done), state)
      invariant !progress.aborted && progress.state == current && progress.hashed == hashed
      invariant client.calls == calls0 + progress.calls
    {
      var l := listings[i];
      ListingStep(cfg, hash, client.failing, done, l, state);
      var ok;
      current, ok, hashed := SyncListing(cfg, hash, l, client, current, progress, calls0);
      progress := RunFrom(cfg, hash, client.failing, progress, FileCandidates(cfg, l, l.files));
      TakeOneMore(listings, i);
      done := done + [l];
      i := i + 1;
      if !ok {
        ListingRaise(cfg, hash, client.failing, listings, i, state);
        return UploadFailed, hashed;
      }
    }
    assert done == listings;
    store.Save(current);
    return Completed, hashed;
  }

  /** `upload_to_s3(directory, s3_bucket, s3_prefix, exclude_list, dry_run)`
      on the local tree `tree` rooted at `cfg.directory`, with `confirmed` the
      answer to the prompt and `client` what `boto3.client('s3')` returns
      (null when it raises). */
  method UploadToS3(cfg: Config, tree: Node, confirmed: bool, hash: Bytes -> string, store: StateStore, client: S3Client?)
    returns (outcome: Outcome, ghost hashed: seq<string>)
    modifies store, client
    ensures outcome == MissingArguments <==> !ArgumentsGiven(cfg)
    ensures outcome == Cancelled <==> ArgumentsGiven(cfg) && !confirmed
    ensures outcome == MissingArguments || outcome == Cancelled ==>
      unchanged(store) && (client != null ==> unchanged(client)) && hashed == []
    ensures outcome == SetupFailed <==> ArgumentsGiven(cfg) && confirmed && client == null
    ensures outcome == SetupFailed ==>
      store.saved == old(store.saved) && store.accesses == old(store.accesses) + [Loaded] && hashed == []
    ensures ArgumentsGiven(cfg) && confirmed && client != null ==>
      var r := SyncTree(cfg, hash, client.failing, tree, old(store.saved));
      && hashed == r.hashed
      && client.calls == old(client.calls) + r.calls
      && (r.aborted ==> outcome == UploadFailed && store.saved == old(store.saved)
                        && store.accesses == old(store.accesses) + [Loaded])
      && (!r.aborted ==> outcome == Completed && store.saved == r.state
                         && store.accesses == old(store.accesses) + [Loaded, Saved(r.state)])
  {
    hashed := [];
    if cfg.bucket == [] || cfg.prefix == [] {
      return MissingArguments, hashed;
    }
    if !confirmed {
      return Cancelled, hashed;
    }
    var state := store.Load();
    if client == null {
      return SetupFailed, hashed;
    }
    outcome, hashed := SyncAndSave(cfg, tree, hash, store, client, state);
  }
}
