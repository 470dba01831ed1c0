# Backup core: directory walker and archive writers

This project models the core of a small backup tool that copies a declared
list of filesystem paths into a tar or zip archive. It has three parts.

- **The directory walker** (`WalkDir.dfy`). This is a depth-first, pre-order
  walk of a directory tree. For each entry it calls a visitor, and the
  visitor's answer (nil, `SkipDir`, `SkipAll` or an error) steers the walk.
  The filesystem is an immutable snapshot (`FileSystem.dfy`): a tree of
  files, directories and symlinks. Each directory carries the outcome of
  reading it: its children in read order, or a read error. The walk returns
  the visitor calls it made, in order, together with its result. `Walk` and
  `WalkRoot` are the specification functions. `WalkEntry` and `WalkDir` follow
  the two Go functions statement by statement and are proved to compute
  them. The lemmas state the walker's promises over the call trace.
- **The archive layer** (`Library.dfy`, `Archive.dfy`, `TarArchive.dfy`,
  `ZipArchive.dfy`).
  - A tar handle and a zip handle are classes. Each owns a writer (the
    records written so far, each a header followed by its content bytes,
    plus a closed flag) and an output file (a name plus a closed flag).
  - The `Archive` interface is a closed choice between the two handles.
    `CreateArchive` picks one by format name.
  - The header builders `NewTarHeader` and `NewZipHeader` are pure
    functions.
  - `AddFile`, `AddDir`, `Flush` and `Close` change the writer and the file.
    Their contracts state the whole new state, on each variant and through
    the interface.
  - Each library call that can fail gets its outcome as a parameter:
    `tar.FileInfoHeader` and `zip.FileInfoHeader`, `WriteHeader` and
    `CreateHeader`, the writer and file `Close`, `os.Create`,
    `os.Readlink`, and the copy from the source.
- **The job loop** (`BackupSpec.dfy`). `Do` creates the archive, runs the
  content loop (`AddContents`) and closes the archive. It returns the
  handle it created as a ghost value, so that its closed state can be
  stated. A ghost counter on the writer records how often it was closed. `Process` and
  `DoSpec` specify it, and the lemmas state its promises over its archive
  calls and log lines.

The model follows the code as written, including these points where it
departs from what its own comments and signatures suggest:

- The comments at walkdir.go:12, 20, 23, 32 and 47-49 say `WalkDir` and
  `walkDir` imitate `fs.WalkDir` and `fs.walkDir`, which stop on a real
  error. Yet a non-nil visitor answer
  on an entry's first visit only stops descent into that entry: the answer
  is discarded, even a real error or `SkipAll`, and nil is returned
  (walkdir.go:38-44).
- The tar `AddFile` and `AddDir` return an `error`, yet they return nil
  after a failed header write (TarArchive.go:107-109, 119-121).
- `Do` does not walk directories. For each stat'ed content path it makes one
  `AddDir` or `AddFile` call with the base name and the path
  (BackupSpec.go:78-84). Those calls do not match the interface's
  signatures, so the model records them as archive calls whose outcome is an
  oracle.
- `Do` returns nil once the archive is created, even after an archive error
  (BackupSpec.go:90). It also drops the error of the deferred `Close`.

## Model

| member | source | states |
|---|---|---|
| `WalkDir.Walk` | walkdir.go:35-72 | Specification of walkDir. Its first call is always the visit of the entry itself, made before ReadDir. A non-directory gets that one call and the result nil. |
| `WalkDir.WalkChildren` | walkdir.go:56-71 | Specification of the children loop from the i-th entry on. With no child left it makes no call and gives nil. Otherwise its next call visits the i-th child at `Join(parent, child name)`. |
| `WalkDir.WalkRoot` | walkdir.go:17-30 | Specification of WalkDir. Its first call is on `root`: with the root's entry when stat succeeds, and with the stat error otherwise. The result is never `SkipDir` or `SkipAll`. |
| `WalkDir.WalkDir` | walkdir.go:17-30 | The root walk is exactly `WalkRoot`. A stat failure gives one call `(root, nil, err)`. Otherwise the entry walk runs. A final `SkipDir` or `SkipAll` becomes nil. |
| `WalkDir.WalkEntry` | walkdir.go:35-72 | The recursive entry walk, with the children loop, its `break` and its early return, computes exactly `Walk`: the same calls in the same order and the same result. |
| `WalkDir.RootStatFailure` | walkdir.go:18-29 | When stat on the root fails, the visitor is called once, with `(root, nil, statErr)`. A `SkipDir` or `SkipAll` answer becomes nil. Any other answer is returned unchanged. |
| `WalkDir.VisitEndsEntry` | walkdir.go:37-44 | A non-nil answer on an entry's first visit, or any non-directory entry (symlinks included), gives exactly one call and the result nil. The answer is discarded, even a real error or `SkipAll`. |
| `WalkDir.ReadDirFailure` | walkdir.go:45-55 | When ReadDir fails on a directory, the directory is visited a second time with the read error. `SkipDir` becomes nil. Any other answer is the result. |
| `WalkDir.WalkNeverSkipDir` | walkdir.go:51-54 | walkDir never returns `SkipDir`. |
| `WalkDir.BreakUnreachable` | walkdir.go:60-64 | No child walk in the loop returns `SkipDir`, so the `break` is never taken. |
| `WalkDir.WalkPreorder` | walkdir.go:37-60 | A walk's first call is the visit of its own entry, made before ReadDir runs. Every later call is on that entry's path or below it, so an entry comes before all of its descendants. |
| `WalkDir.ChildrenInOrder` | walkdir.go:56-70 | Children are walked in ReadDir order, each at `Join(parent, name)`. The walk stops after the first child whose result is non-nil. That result becomes the directory's, and no later sibling is visited. |
| `WalkDir.WalkResultFromVisitor` | walkdir.go:35-72 | A non-nil result of walkDir is an answer the visitor gave to one of that walk's own calls. |
| `WalkDir.RootResult` | walkdir.go:17-30 | WalkDir returns nil or a real error. A real error is an answer the visitor gave during the walk. |
| `WalkDir.SampleWalk` | walkdir.go:56-60 | On the example tree `src/{a.txt, sub/b.txt}`, a visitor that always continues sees the four paths in pre-order. Answering `SkipDir` for `sub` drops only `sub/b.txt`, and the walk still returns nil. |
| `Library.Writer.constructor` | TarArchive.go:29 | `tar.NewWriter`/`zip.NewWriter`: a writer with no records, open. |
| `Library.Writer.Flush` | TarArchive.go:48 | The writer's flush returns the library outcome. |
| `Library.OsFile.constructor` | TarArchive.go:22 | A file that `os.Create` opened: it keeps the name it was created with and is open. |
| `Library.Writer.WriteHeader` | TarArchive.go:95 | The library header write (`WriteHeader`/`CreateHeader`). On success it starts one new record with that header and an empty body. On failure nothing is written and the error is returned. |
| `Library.Writer.Write` | Archive.go:60 | Written bytes are appended to the body of the record started last. No other record changes. |
| `Library.Writer.Close` | TarArchive.go:38 | The writer is closed, its records are unchanged, and the library outcome is returned. |
| `Library.OsFile.Close` | TarArchive.go:41 | The file is closed and the outcome is returned. |
| `ArchiveSupport.WithTrailingSlash` | ZipArchive.go:86-89 | The result ends in "/". It is `name + "/"` exactly when `name` does not already end in "/", and otherwise it is `name`. |
| `ArchiveSupport.TrailingSlashIdempotent` | ZipArchive.go:86-89 | Adding the trailing slash twice gives the same name as adding it once. |
| `ArchiveSupport.FormatName` | Archive.go:50-54 | The result is the archive name, then ":", then the entry name, with the length of the three together. |
| `ArchiveSupport.FormatNameInjective` | Archive.go:52-54 | Within one archive, different entry names give different "archive:entry" names. |
| `ArchiveSupport.Copied` | Archive.go:60 | The byte count is at most the source length. Without a failure it is the whole source. With a failure it is at most the failure point, and it equals that point whenever it is below the source length. |
| `ArchiveSupport.CopyError` | Archive.go:61-65 | The error is nil exactly when the copy does not fail. A failure error carries the cause, the source name, the destination name and the count copied. |
| `ArchiveSupport.CopyData` | Archive.go:56-66 | The destination's last record receives the first `Copied(src)` source bytes, in order, and no other record changes. On success that is every byte and nil is returned. On failure the wrapped error is returned. |
| `TarArchive.NewTarHeader` | TarArchive.go:57-91 | A library failure is returned as the error. On success the header's name is `name`, plus "/" exactly for a directory whose name does not end in "/". It keeps the entry's kind and metadata. The link name is read from `name`, and only for symlinks. A failed read logs one warning and leaves the link name empty. |
| `TarArchive.TarNameIdempotent` | TarArchive.go:84-89 | Building a header again from a name the builder produced gives that name back. |
| `TarArchive.TarArchive.Name` | TarArchive.go:33-35 | The name of the archive file. `NewTarArchive` proves it is the path the archive was created at. |
| `TarArchive.TarArchive.constructor` | TarArchive.go:27-30 | A handle on the given file with a fresh, empty, open tar writer. |
| `TarArchive.NewTarArchive` | TarArchive.go:20-35 | A failed `os.Create` is returned. Otherwise the result is a fresh, open, empty archive whose `Name()` is the path. |
| `TarArchive.TarArchive.Close` | TarArchive.go:37-45 | The writer is closed first. If that fails, the file stays open and the writer error is returned. Otherwise the file is closed and its outcome is returned. The records are unchanged. |
| `TarArchive.TarArchive.Flush` | TarArchive.go:47-49 | Returns the writer's flush outcome. |
| `TarArchive.TarArchive.WriteHeader` | TarArchive.go:93-99 | The header write's error is returned. On success exactly one record with that header is appended. |
| `TarArchive.TarArchive.AddFile` | TarArchive.go:101-111 | A header error is returned and nothing is written. A failed header write returns nil, and nothing is written or copied. Otherwise one record is appended: the header, then the copied bytes. The copy's result names `FormatName(Name(), name)` as destination. |
| `TarArchive.TarArchive.AddDir` | TarArchive.go:113-123 | A header error is returned. Otherwise nil is returned, and one record with no content is appended unless the header write failed. |
| `ZipArchive.NewZipHeader` | ZipArchive.go:59-69 | A library failure is returned and there is no header. On success the name is exactly `name`, the method is Deflate (8), and the kind and metadata come from the entry. |
| `ZipArchive.ZipArchive.Name` | ZipArchive.go:33-35 | The name of the archive file. `NewZipArchive` proves it is the path the archive was created at. |
| `ZipArchive.ZipArchive.constructor` | ZipArchive.go:27-30 | A handle on the given file with a fresh, empty, open zip writer. |
| `ZipArchive.NewZipArchive` | ZipArchive.go:20-35 | A failed `os.Create` is returned. Otherwise the result is a fresh, open, empty archive whose `Name()` is the path. |
| `ZipArchive.ZipArchive.Close` | ZipArchive.go:37-45 | The writer is closed first. If that fails, the file stays open and the writer error is returned. Otherwise the file is closed and its outcome is returned. |
| `ZipArchive.ZipArchive.Flush` | ZipArchive.go:47-49 | Returns the writer's flush outcome. |
| `ZipArchive.ZipArchive.AddFile` | ZipArchive.go:71-82 | The name is kept as given. A header error and a `CreateHeader` error are both returned, and nothing is written. Otherwise one record is appended with the copied bytes, and the copy's result is returned. |
| `ZipArchive.ZipArchive.AddDir` | ZipArchive.go:84-100 | "/" is appended exactly when the name lacks it. Both errors are returned. On success exactly one record with no content is appended. |
| `Archive.Archive.Name` | Archive.go:14-15 | Through the interface, the name is that of the file the archive is written to. `CreateArchive` proves it is the name asked for. |
| `Archive.CreateError` | Archive.go:39-48 | An unsupported format gives the error naming that format. "tar" and "zip" give the outcome of `os.Create`. |
| `Archive.CreateArchive` | Archive.go:38-48 | "tar" gives a tar handle and "zip" gives a zip handle, each fresh, empty, open and named `name`. Any other format gives an error naming the format, and no archive. |
| `Archive.Close` | Archive.go:16-17 | Through the interface, both variants close the writer, then the file, and return the first error. |
| `Archive.Flush` | Archive.go:18-19 | Through the interface, both variants flush the writer and return its outcome. |
| `Archive.AddFile` | Archive.go:24-30 | Through the interface, at most one record is added and the old records are unchanged. The new record holds the copied source bytes, and the kind and metadata of `stat`. Its name is `name`, or `name + "/"` for a directory on tar. Neither the writer nor the file is closed; a source has no closed state in the model (see "## Left out"). Each variant's error and new records are stated in full: tar as in `TarArchive.AddFile`, zip as in `ZipArchive.AddFile`. |
| `Archive.AddDir` | Archive.go:31-35 | Through the interface, AddDir is not recursive and adds at most one record, with no content and with the kind and metadata of `stat`. On zip the name always ends in "/". On tar it ends in "/" for a directory. Each variant's error and new records are stated in full, as in its own `AddDir`. |
| `Formats.FormatNames` | BackupSpec.go:25-28 | The constants `FormatTar` and `FormatZip` are "tar" and "zip", and they differ. |
| `BackupSpec.CallFor` | BackupSpec.go:78-84 | The call Do makes for a stat'ed path: `AddDir` exactly for a directory and `AddFile` exactly otherwise, never the close. It takes the entry's base name and the path. |
| `BackupSpec.Process` | BackupSpec.go:71-89 | Specification of the content loop from the i-th path on: a stat failure logs a warning and goes on, a stat'ed path gets its call, and a rejected path ends the loop with its error. `ProcessIsDispatch` and `ProcessBound` state what it computes. |
| `BackupSpec.AddContents` | BackupSpec.go:71-89 | The content loop, with its `continue` and `break`, computes exactly `Process` from the first path. It runs on an archive that is still open. |
| `BackupSpec.DoSpec` | BackupSpec.go:64-91 | Specification of Do. The error is the `CreateArchive` error. A failed create makes no call and logs nothing. Otherwise the last call is the close. |
| `BackupSpec.Do` | BackupSpec.go:62-91 | The job computes exactly `DoSpec`. It returns the `CreateArchive` error, or nil once the archive exists, even after an archive error broke the loop. It returns the archive, as a ghost value, exactly when it created one. That archive is fresh and named `Path`, with no records. Its writer was closed exactly once, after the content loop, which requires an open archive. Its file is closed exactly when the writer closed cleanly. |
| `BackupSpec.ClosedExactlyOnce` | BackupSpec.go:65-69 | A failed `CreateArchive` is returned, with no archive call and no log line. For a created archive, the recorded calls hold exactly one close, and it is the last call. `Do` proves the same of the real archive: its ghost close count is 1, and the close comes after the content loop. |
| `BackupSpec.StatFailureSkipped` | BackupSpec.go:72-76 | A content path whose stat fails adds one warning and no archive call, and the loop goes on with the next path. |
| `BackupSpec.ProcessBound` | BackupSpec.go:71-89 | The loop makes at most one archive call or log line per content path, plus one error line for the rejected path. |
| `BackupSpec.ProcessIsDispatch` | BackupSpec.go:71-89 | The loop is the plain dispatch of the content paths up to and including the first one the archive rejects. Each path that stats gets one call, in `Contents` order: `AddDir` for a directory, `AddFile` otherwise. Each path that does not stat gets a warning. A rejected path's error is logged last. No later path is looked at. |

## Left out

- Options.go (flag parsing, usage, process exit), logging.go (the global logger and its outputs) and main.go (loading the job file, the command-line loop, `Die`/`Fatalf`) are not modelled. They are thin wrappers over libraries. The warning and error lines the core logs are returned as `LogLine` values instead.
- `UnmarshalBackupSpecs` and `BackupSpecsFromFile` are not modelled, because they are JSON/YAML decoding and file reading through opaque libraries. `Do` takes the decoded job as a value.
- `AddFS` on both variants is not modelled. It only passes through to the library's own walker.
- The byte layout of tar and zip is not modelled: blocks, checksums, trailers and Deflate compression all live in the libraries. Headers are records of the fields the core sets.
- Timestamps, modes, ownership, extended attributes and PAX records are one opaque `Meta` value that passes through unchanged.
- `os.Stat`, `os.ReadDir`, `os.Readlink` and `os.Create` are not called. A snapshot and outcome parameters replace them. ReadDir's by-name order is the stored child order. Whether stat follows a root symlink is up to the snapshot.
- `path.Join` is modelled as `parent + "/" + child`, without its lexical cleaning.
- Verbose and debug output is not modelled.
- The `Infof` lines "Adding directory tree" and "Adding file" (BackupSpec.go:79, 82) are not recorded. They are informational and carry no outcome; the archive call each one announces is recorded as an `ArchiveCall`.
- The `ctx context.Context` parameter of `Do` (BackupSpec.go:64) is dropped, because the body never uses it.
- Dry run is not modelled: `Options.DryRun` is declared (Options.go:24) and set from the `-dry-run` flag (Options.go:44), but nothing reads it.
- `Debugf` (TarArchive.go:102, :114, ZipArchive.go:72, :85), `SetupLogging` (main.go:11), `ParseLogLevel` (Options.go:41) and the type `LogLevel` (Options.go:22) are used but not defined in these Go files. logging.go defines only a lower-case `setupLogging(logFile)` (logging.go:16). There is nothing to model.
- The visitor is a pure function of its three arguments. Side effects a real visitor may have are not modelled.
- The unused `dp` parameter of `AddDir` is dropped.
- `BackupSpec.Do`: its `AddDir`/`AddFile` calls do not match the interface, so they are recorded as archive calls with an oracle outcome. They add no records to the archive object.
- `Archive.AddFile`: the interface declares its source as an `*os.File` (Archive.go:30), but both variants take an `io.Reader` (TarArchive.go:101, ZipArchive.go:71). As written, the variants therefore do not implement the interface, and Archive.go:42 and :44 would not type-check. The model uses the reader form (`Source`) throughout.
- `Archive.AddFile`: the caller closing `fp` (Archive.go:28-29) is not modelled. A `Source` is a plain value with no closed state, so "nothing is closed" in its row holds because nothing in the model can close a source. It is not a proved property of the reader.
- `ArchiveSupport.CopyData`: one failure point stands for both reader errors and writer errors (for example tar's write-too-long). For zip, the bytes go to the record the writer started last, not to a separate per-entry writer object.
- The libraries' own header rewriting is not modelled, for example zip storing a name that ends in "/" with method Store. The same goes for their behaviour after `Close`: every library call's outcome is a parameter.
