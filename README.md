# Incremental S3 upload: a Dafny model of `upload_to_s3`

`s3sync` backs up a local directory to an S3 bucket. Its `upload` command,
`upload_to_s3(directory, s3_bucket, s3_prefix, exclude_list, dry_run)`, works in
six steps:

1. It refuses to run without a bucket and a prefix.
2. It asks for confirmation.
3. It loads a state map from local path to checksum.
4. It walks the directory tree top-down. Excluded directory names are pruned
   in place, so their subtrees are never visited. Files with an excluded name
   are skipped.
5. For each remaining file it computes a checksum. If the state already holds
   that checksum for the file's local path, the file is skipped. Otherwise a
   dry run only reports the file, and a real run calls `upload_file` under the
   key `prefix/relative path` and then records the checksum.
6. It saves the state map once at the end. An `upload_file` call that raises
   ends the whole loop without saving.

The project models this command in five modules:

- `Paths` (`paths.dfy`) covers three things:
  - `os.path.join` on a POSIX host;
  - the relative path of a walked file;
  - the chain of `root` strings a top-down walk produces.
  It proves that the walked local path is the sync root joined with the
  relative path, and that two different relative paths never give the same
  local path.
- `FileTree` (`tree.dfy`) defines the directory tree as a datatype. It also
  defines the walk with its in-place pruning as the functions `Walk`/`Into`.
  It proves the walk sound (it lists only directories below the root whose
  path crosses no excluded name) and complete (it lists every such
  directory, with its files). In a well-formed tree it also proves that the
  walk lists no directory twice.
- `Sync` (`sync.dfy`) is the specification of the loop:
  - the files the walk hands to the loop (`Sources`);
  - the loop body for one file (`Process`);
  - the run over all files (`RunAll`, `SyncTree`);
  - reference definitions to compare the run with: which files need
    uploading against the loaded state (`NeedsUpload`, `Planned`), and the
    loaded state with every checksum recorded (`Recorded`).
  Its lemmas state what a run does, what it leaves alone, and what a rerun
  does.
- `Upload` (`upload.dfy`) is the command itself, written imperatively:
  - a `StateStore` class for the state file;
  - an `S3Client` class whose `upload_file` raises for a given set of keys
    and records every call;
  - the nested loops over the walk and its files as the methods `SyncAndSave`,
    `SyncListing` and `SyncFile`, each proved against the `Sync`
    specification;
  - `UploadToS3` with the argument check, the confirmation, the load, the
    client setup and the final save.
- `Scenario` (`scenario.dfy`) is a worked run over a root with two files:
  - a first run, a rerun, and a rerun after one file changed;
  - a run whose first upload raises.

## Model

| member | source | states |
|---|---|---|
| Upload.UploadToS3 | s3sync/commands/upload.py:24-78 | An empty bucket or prefix ends the command with `MissingArguments`, without touching the state file or the client. An unconfirmed prompt ends with `Cancelled`, also without touching them. Only with both arguments and a "yes" is the state loaded. A client that cannot be created ends with `SetupFailed` after the load and saves nothing. Otherwise the upload calls and the checksummed paths are those of `SyncTree` from the loaded state. A raise leaves the state file as loaded, with no save. A full run saves the run's final state once, after the single load. |
| Upload.SyncAndSave | s3sync/commands/upload.py:46-76 | The walk loop with its final save. It issues exactly the upload calls of `SyncTree` and checksums exactly its paths. On a raise it returns `UploadFailed` and leaves the state file untouched. Otherwise it returns `Completed`, and the file holds the run's final state after one `save_state`. |
| Upload.SyncListing | s3sync/commands/upload.py:49-72 | The loop over one listing's files, excluded names skipped. Its calls, state, checksummed paths and raise are those of the specification run over that listing's files, continued from the progress so far. |
| Upload.SyncFile | s3sync/commands/upload.py:51-71 | One file's body (local path, key, checksum, then skip, dry run or upload) has exactly the effect of one step `Process` of the specification: the same calls, state, checksummed paths and raise. |
| Upload.StateStore.Load | s3sync/commands/upload.py:43 | Returns the saved map, leaves it unchanged and records one load. |
| Upload.StateStore.Save | s3sync/commands/upload.py:74 | Replaces the saved map and records one save of it. |
| Upload.S3Client.UploadFile | s3sync/commands/upload.py:68 | Records the call `(local_path, bucket, key)`. Returns normally exactly when the key is not one that raises. |
| Upload.ExitStatus | s3sync/commands/upload.py:24-26 | Among the modelled endings, the exit status is non-zero exactly for missing arguments. The others return normally, including the two caught errors `BotoCoreError` and `NoCredentialsError`. |
| Upload.ArgumentsGiven | s3sync/commands/upload.py:24 | A definition without its own contract: both the bucket and the prefix are non-empty. `Upload.UploadToS3` pins it down: the command ends with `MissingArguments` exactly when it fails, before the state file or the client is touched. `Upload.ExitStatus` gives that ending the only non-zero status. |
| Upload.FileStep | s3sync/commands/upload.py:49-50 | One more file of a listing adds one loop step, or none when its name is excluded. |
| Upload.FileRaise | s3sync/commands/upload.py:68-76 | After a raise inside a listing, its remaining files change nothing. |
| Upload.ListingStep | s3sync/commands/upload.py:47-49 | One more listing of the walk continues the run over that listing's files. |
| Upload.ListingRaise | s3sync/commands/upload.py:68-76 | After a raise, the remaining listings of the walk change nothing. |
| Sync.MakeCandidate | s3sync/commands/upload.py:51-53 | A definition without its own contract: the file's relative path, its `local_path` (the listing's root joined with the file name), its `s3_key` (the prefix joined with the rendered relative path) and its content. `Sync.CandidateKeys` and `Sync.ProcessedFile` pin it down: the local path is the sync root joined with the rendered relative path, and the key is the prefix joined with that same path. |
| Sync.FileCandidates | s3sync/commands/upload.py:49-53 | A definition without its own contract: the files of one listing whose name is not excluded, in listing order, each made by `MakeCandidate`. Its lemma `FileCandidatesMembers` states the membership in both directions. `Upload.FileStep` ties it to the inner loop, one file at a time. |
| Sync.Sources | s3sync/commands/upload.py:47-53 | A definition without its own contract: the files of every listing of `FileTree.Walk` from the sync root, in walk order. `Sync.ProcessedFile` and `Sync.UnexcludedFileProcessed` pin it down in both directions: a file is among them exactly when it lies in the tree on a path that crosses no excluded name. `Sync.SourcesDistinct` shows that no local path repeats. |
| Sync.Process | s3sync/commands/upload.py:56-71 | A definition without its own contract: one file's loop body. It checksums the file. It skips the file when the state already holds that checksum for its local path. Otherwise it makes no call in a dry run, and in a real run it calls `upload_file` and either records the checksum or stops on a raise. `Upload.SyncFile` ties the imperative body to it. `Sync.ProcessTouches` shows it changes nothing but its own file. `Sync.RunShape` compares its repetition with the independent `Planned`/`Recorded` definitions. |
| Sync.RunFrom | s3sync/commands/upload.py:49-72 | A definition without its own contract: `Process` applied to each file in turn, continuing from a given progress. `Upload.SyncListing` ties the inner loop to it. `Sync.RunAllAppend` shows that a run over two batches is a run over their concatenation. |
| Sync.RunAll | s3sync/commands/upload.py:47-72 | A definition without its own contract: `Process` applied to each file in turn, from the loaded state. `Sync.RunShape`, `Sync.CompletedRun`, `Sync.RunTouchesOnlyItsFiles`, `Sync.AbortedStays` and `Sync.DryRunChangesNothing` pin it down. |
| Sync.SyncTree | s3sync/commands/upload.py:47-72 | A definition without its own contract: `RunAll` over `Sources`, the whole walk-and-upload loop. `Upload.SyncAndSave` ties the nested imperative loops to it. `Sync.ExcludedPathUntouched`, `Sync.RerunUploadsNothing` and `Sync.FailedUploadStopsRun` state what it does. |
| Sync.ProcessedFile | s3sync/commands/upload.py:47-53 | Every processed file exists in the tree at its relative path, and no name on that path is excluded (neither a pruned directory nor the file name). Its local path is the walked root joined with its name. Its key is the prefix joined with its relative path. |
| Sync.UnexcludedFileProcessed | s3sync/commands/upload.py:47-50 | Conversely, every file in the tree whose path crosses no excluded name is processed, with its content. |
| Sync.CandidateKeys | s3sync/commands/upload.py:51-53 | In a well-formed tree, `local_path` is the root joined with the rendered relative path, and `s3_key` is the prefix joined with that same rendered path. |
| Sync.ExcludedPathUntouched | s3sync/commands/upload.py:47-50 | A path crossing an excluded name is never touched, whether a pruned directory's subtree or an excluded file name. It is not checksummed and not uploaded, and its state entry keeps its loaded value (absent stays absent). This holds in dry and real runs alike, whichever uploads raise. |
| Sync.SourcesDistinct | s3sync/commands/upload.py:47-51 | In a well-formed tree no local path is processed twice. |
| Sync.DryRunChangesNothing | s3sync/commands/upload.py:62-63 | A dry run checksums every file, makes no upload call, never raises, and ends with the state exactly as loaded. |
| Sync.ProcessTouches | s3sync/commands/upload.py:56-69 | One file's step checksums only that file, calls `upload_file` only for it, and changes the state only at its path, and only together with that call. |
| Sync.RunTouchesOnlyItsFiles | s3sync/commands/upload.py:56-69 | A run checksums and uploads only files it was given. No state entry is removed, and every entry whose path was not uploaded keeps its loaded value. |
| Sync.RunShape | s3sync/commands/upload.py:56-69 | A real run over distinct local paths has processed a prefix of the files. Exactly those of them that need uploading against the loaded state were uploaded, in order, and every upload but a raising last one returned. Without a raise every file is processed and the state is the loaded one with every checksum recorded. With a raise, the last call is that file's, and only the files before it are recorded. |
| Sync.CompletedRun | s3sync/commands/upload.py:56-74 | A real run that did not raise uploads exactly the new and changed files. Every processed file's state entry is its checksum. |
| Sync.RerunUploadsNothing | s3sync/commands/upload.py:57-69 | Rerunning over unchanged files after a completed run makes no upload call, cannot raise, and leaves the state as it was. |
| Sync.FailedUploadStopsRun | s3sync/commands/upload.py:68-76 | When an upload raises, the files after it are never checksummed. Its last call is the raising one, and its key is among those that raise. The failed file's own entry keeps its loaded value; only the files before it are recorded. |
| Sync.AbortedStays | s3sync/commands/upload.py:68-76 | Once an upload has raised, further files change nothing. |
| Sync.RunAllAppend | s3sync/commands/upload.py:47-49 | Running over one batch of files and then over another is running over both, so the nested loops over the listings and their files are one loop over all files in walk order. |
| Sync.RecordedElsewhere | s3sync/commands/upload.py:69 | Recording checksums changes only the entries of the recorded files. |
| Sync.RecordedAt | s3sync/commands/upload.py:69 | With distinct local paths, each recorded file's entry holds its checksum. |
| Sync.RecordedIdempotent | s3sync/commands/upload.py:57 | Recording checksums the state already holds changes nothing. |
| Sync.NothingPlanned | s3sync/commands/upload.py:57 | No upload is needed when the state holds every file's checksum. |
| FileTree.Walk | s3sync/commands/upload.py:47 | A definition without its own contract: the listings `os.walk` yields top-down, a directory first and then the walks of its kept subdirectories. `FileTree.WalkSound` and `FileTree.WalkComplete` pin it down in both directions. `FileTree.WalkRelsDistinct` shows it lists no directory twice. |
| FileTree.Into | s3sync/commands/upload.py:47-48 | A definition without its own contract: the walks of the kept subdirectories, one after the other, each starting from the root joined with that subdirectory's name. Its lemmas `IntoSound` and `IntoContains` carry `FileTree.WalkSound` and `FileTree.WalkComplete` through the subdirectories. |
| FileTree.PruneDirs | s3sync/commands/upload.py:48 | A definition without its own contract: the subdirectory list after `dirs[:] = ...`. `FileTree.Kept` pins it down: exactly the subdirectories whose name is not excluded. |
| FileTree.WalkSound | s3sync/commands/upload.py:47-48 | The walk lists only directories that exist below the root and whose path crosses no excluded name. It lists each with its files, its pruned subdirectories and the joined root string. |
| FileTree.WalkComplete | s3sync/commands/upload.py:47-48 | Every directory below the root whose path crosses no excluded name is listed, with its files. |
| FileTree.WalkRelsDistinct | s3sync/commands/upload.py:47 | In a well-formed tree the walk lists no directory twice. |
| FileTree.Kept | s3sync/commands/upload.py:48 | After pruning, the walk descends into exactly the subdirectories whose name is not excluded. |
| FileTree.FilesOfMembers | s3sync/commands/upload.py:47 | The `files` of a listing are exactly the directory's regular files. |
| FileTree.FilesOfDistinct | s3sync/commands/upload.py:47 | The `files` of a listing repeat no name when the directory repeats none. |
| Paths.Join | s3sync/commands/upload.py:51-53 | A definition without its own contract: POSIX `os.path.join` of two arguments. An absolute second argument replaces the first; otherwise a `/` is put between them unless the first is empty or already ends in one. `Paths.JoinInjective` shows that joining onto one prefix never maps two relative paths to one key. `Paths.PathOfIsJoin` relates it to the walk's chain of `root` strings. |
| Paths.Render | s3sync/commands/upload.py:52 | A definition without its own contract: a relative path as a string, its names separated by `/`. It stands in for what `relpath` returns. `Paths.RenderInjective` shows that the string names exactly one list of names. `Paths.PathOfIsJoin` shows that joining it onto the root gives the walked local path. |
| Paths.PathOfIsJoin | s3sync/commands/upload.py:51-52 | The local path the walk reaches is the sync root joined with the rendered relative path. |
| Paths.PathOfInjective | s3sync/commands/upload.py:51 | Two different relative paths of valid names never give the same local path. |
| Paths.JoinInjective | s3sync/commands/upload.py:53 | Joining relative paths onto the prefix never maps two paths to one key. |
| Paths.RenderInjective | s3sync/commands/upload.py:52 | A relative path string names exactly one list of names. |
| Scenario.TreeRun | s3sync/commands/upload.py:47-53 | A root holding `a.txt` and `b.txt`, with prefix `backup`, hands the loop `root/a.txt` keyed `backup/a.txt` and `root/b.txt` keyed `backup/b.txt`, in that order. |
| Scenario.FirstRun | s3sync/commands/upload.py:56-69 | From an empty state both files are uploaded, in order, and both checksums are recorded. |
| Scenario.UnchangedRerun | s3sync/commands/upload.py:57-59 | Rerunning after the first run uploads nothing, does not raise, and leaves the state as the first run recorded it. |
| Scenario.ChangedRerun | s3sync/commands/upload.py:57-69 | After `a.txt` changes, only `a.txt` is uploaded again. The run does not raise, and the state differs from the first run's only in `a.txt`'s new checksum. |
| Scenario.FirstUploadRaises | s3sync/commands/upload.py:68-76 | When the upload of `a.txt` raises, `b.txt` is never checksummed and the state keeps nothing of the run. |

## Left out

- Printing, the verbose messages and the `input` prompt are left out. The prompt's answer is the boolean `confirmed`; `.lower()` and the comparison with "yes" are not modelled.
- The count and size computed before the prompt (`get_total_upload_objects`, `get_total_upload_size`, `format_size`) are left out. They only feed printed output, and their code is not part of this model.
- `load_state`, `save_state` and `calculate_checksum` are not part of this model. The state file is the `StateStore` object. The checksum is the function parameter `hash` of the file's bytes, with no assumption about collisions.
- How `boto3.client('s3')` is created, and the network transport, are left out. A client that cannot be created is `null`. Whether an `upload_file` call raises is fixed by the client's set of failing keys.
- The `KeyboardInterrupt` handler, `sys.exit(0)` (lines 80-82), is left out, because an interrupt is asynchronous.
- The order in which `os.walk` lists entries is fixed to the order of a directory's children. The separator is `/`. `os.path.relpath` is modelled as the relative path rendered with `/`. `Sync.CandidateKeys` proves only that the local path is the root joined with that rendered path. That `relpath` gives the rendered path back is a property of `os.path` taken as given, not proved. It holds because entry names are never empty, `.` or `..` and contain no separator (`Paths.ValidName`). The normalisation `relpath` does is not modelled.
- Symbolic links, permissions, and files that change or disappear during the walk are left out. A walk of a root that is not a directory yields nothing, as `os.walk` does for a missing directory.
- Where the code differs from what the command's design would suggest (carry on after a failed upload, a non-zero status when the client cannot be created, a report of a missing directory), the model follows the code:
  - A raising `upload_file` ends the whole loop, and `save_state` is skipped. It does not just skip one file.
  - A client that cannot be created, or an upload that raises `BotoCoreError` or `NoCredentialsError`, prints an error and returns normally (exit status 0).
  - A missing directory is not reported.
- Exceptions of any class other than `BotoCoreError` and `NoCredentialsError` are left out. Examples are an `S3UploadFailedError` from `upload_file`, or an `OSError` from `calculate_checksum`, `load_state` or `save_state`. Such an exception escapes `upload_to_s3` (lines 75 and 80 catch nothing else). The loop stops and nothing is saved, as in the model's abort. But the command ends with a traceback and a non-zero status, an ending the `Outcome` type does not have.
- Upload.ExitStatus: covers only the modelled endings. An uncaught exception's non-zero status is not among them, as the line above explains.
