/**
 * BackupSpec.go: the format names a backup job may ask for, and the job
 * loop `Do`, which creates the archive, hands each content path to it and
 * closes it.
 */
module Formats {
  const FormatTar: string := "tar"
  const FormatZip: string := "zip"

  /** The two format names a job may ask for: "tar" and "zip", and they differ. */
  lemma FormatNames()
    ensures FormatTar == "tar" && FormatZip == "zip"
    ensures FormatTar != FormatZip
  {
  }
}

module BackupSpec {
  import opened Common
  import opened FileSystem
  import opened Formats
  import Archive

  /** One backup job: its name, the archive path, the format name and the content paths in order. */
  datatype BackupSpec = BackupSpec(name: string, path: string, format: string, contents: seq<string>)

  /**
   * The calls Do makes on its archive.  AddDir(stat.Name(), fn) and
   * AddFile(stat.Name(), fn) are recorded with both arguments; their outcome
   * is an oracle, `add(i)` for the i-th content path.
   */
  datatype ArchiveCall = AddDirCall(name: string, path: string) | AddFileCall(name: string, path: string) | CloseCall

  /** The archive calls and log lines of the content loop. */
  datatype Progress = Progress(calls: seq<ArchiveCall>, log: seq<LogLine>)

  /** What a run of Do produces: its return value, the archive calls and the log lines. */
  datatype Job = Job(err: Option<Error>, calls: seq<ArchiveCall>, log: seq<LogLine>)

  /** The call Do makes for a stat'ed content path: AddDir for a directory, AddFile otherwise. */
  function CallFor(stat: Node, path: string): (r: ArchiveCall)
    ensures r.AddDirCall? <==> stat.IsDir()
    ensures r.AddFileCall? <==> !stat.IsDir()
    ensures !r.CloseCall? && r.name == stat.name && r.path == path
  {
    if stat.IsDir() then AddDirCall(stat.name, path) else AddFileCall(stat.name, path)
  }

  // ---------------------------------------------------------------------
  // Specification
  // ---------------------------------------------------------------------

  /** The content loop of Do from the `i`-th content path on. */
  function Process(fs: FileSystem, contents: seq<string>, add: nat -> Option<Error>, i: nat): Progress
    requires i <= |contents|
    decreases |contents| - i
  {
    if i == |contents| then
      Progress([], [])
    else
      match Stat(fs, contents[i])
      case Err(e) =>
        var rest := Process(fs, contents, add, i + 1);
        Progress(rest.calls, [SkippingWarning(contents[i], e)] + rest.log)
      case Ok(stat) =>
        var call := CallFor(stat, contents[i]);
        match add(i)
        case Some(e) => Progress([call], [BackupFailedError(contents[i], e)])
        case None =>
          var rest := Process(fs, contents, add, i + 1);
          Progress([call] + rest.calls, rest.log)
  }

  /** BackupSpec.Do: `create` is the outcome of os.Create on the archive path. */
  function DoSpec(spec: BackupSpec, fs: FileSystem, create: Option<Error>, add: nat -> Option<Error>): (r: Job)
    ensures r.err == Archive.CreateError(spec.format, create)
    ensures r.err.Some? ==> r.calls == [] && r.log == []
    ensures r.err.None? ==> |r.calls| > 0 && r.calls[|r.calls| - 1] == CloseCall
  {
    match Archive.CreateError(spec.format, create)
    case Some(e) => Job(Some(e), [], [])
    case None =>
      var p := Process(fs, spec.contents, add, 0);
      Job(None, p.calls + [CloseCall], p.log)
  }

  // ---------------------------------------------------------------------
  // The code
  // ---------------------------------------------------------------------

  /**
   * The content loop of Do (BackupSpec.go:71-89): each path is stat'ed, a
   * failed stat is logged and skipped, and a stat'ed path goes to AddDir or
   * AddFile by its kind; the first archive error is logged and ends the loop.
   * It runs on the archive `a`, which is still open.
   */
  method AddContents(a: Archive.Archive, fs: FileSystem, contents: seq<string>, add: nat -> Option<Error>)
    returns (calls: seq<ArchiveCall>, log: seq<LogLine>)
    requires !a.Writer().closed
    ensures Progress(calls, log) == Process(fs, contents, add, 0)
  {
    calls, log := [], [];
    ghost var total := Process(fs, contents, add, 0);
    var i := 0;
    while i < |contents|
      invariant 0 <= i <= |contents|
      invariant total.calls == calls + Process(fs, contents, add, i).calls
      invariant total.log == log + Process(fs, contents, add, i).log
    {
      var fn := contents[i];
      var stat := Stat(fs, fn);
      if stat.Err? {
        SkipStep(fs, contents, add, i, calls, log, total);
        log := log + [SkippingWarning(fn, stat.error)];
        i := i + 1;
        continue;
      }
      if stat.value.IsDir() {
        calls := calls + [AddDirCall(stat.value.name, fn)];
      } else {
        calls := calls + [AddFileCall(stat.value.name, fn)];
      }
      var e := add(i);
      if e.Some? {
        FailStep(fs, contents, add, i, calls, log, total);
        log := log + [BackupFailedError(fn, e.value)];
        break;
      }
      DispatchStep(fs, contents, add, i, calls, log, total);
      i := i + 1;
    }
  }

  // One step of the content loop, for each way the i-th path can go.

  lemma SkipStep(fs: FileSystem, contents: seq<string>, add: nat -> Option<Error>, i: nat,
                 calls: seq<ArchiveCall>, log: seq<LogLine>, total: Progress)
    requires i < |contents| && Stat(fs, contents[i]).Err?
    requires total.calls == calls + Process(fs, contents, add, i).calls
    requires total.log == log + Process(fs, contents, add, i).log
    ensures total.calls == calls + Process(fs, contents, add, i + 1).calls
    ensures total.log == (log + [SkippingWarning(contents[i], Stat(fs, contents[i]).error)]) + Process(fs, contents, add, i + 1).log
  {
    var w := SkippingWarning(contents[i], Stat(fs, contents[i]).error);
    var rest := Process(fs, contents, add, i + 1);
    assert Process(fs, contents, add, i).log == [w] + rest.log;
    assert log + ([w] + rest.log) == (log + [w]) + rest.log;
  }

  lemma DispatchStep(fs: FileSystem, contents: seq<string>, add: nat -> Option<Error>, i: nat,
                     calls: seq<ArchiveCall>, log: seq<LogLine>, total: Progress)
    requires i < |contents| && Stat(fs, contents[i]).Ok? && add(i).None?
    requires |calls| > 0 && calls[|calls| - 1] == CallFor(Stat(fs, contents[i]).value, contents[i])
    requires total.calls == calls[..|calls| - 1] + Process(fs, contents, add, i).calls
    requires total.log == log + Process(fs, contents, add, i).log
    ensures total.calls == calls + Process(fs, contents, add, i + 1).calls
    ensures total.log == log + Process(fs, contents, add, i + 1).log
  {
    var c := CallFor(Stat(fs, contents[i]).value, contents[i]);
    var rest := Process(fs, contents, add, i + 1);
    var before := calls[..|calls| - 1];
    assert calls == before + [c];
    assert Process(fs, contents, add, i).calls == [c] + rest.calls;
    assert before + ([c] + rest.calls) == (before + [c]) + rest.calls;
  }

  lemma FailStep(fs: FileSystem, contents: seq<string>, add: nat -> Option<Error>, i: nat,
                 calls: seq<ArchiveCall>, log: seq<LogLine>, total: Progress)
    requires i < |contents| && Stat(fs, contents[i]).Ok? && add(i).Some?
    requires |calls| > 0 && calls[|calls| - 1] == CallFor(Stat(fs, contents[i]).value, contents[i])
    requires total.calls == calls[..|calls| - 1] + Process(fs, contents, add, i).calls
    requires total.log == log + Process(fs, contents, add, i).log
    ensures total == Progress(calls, log + [BackupFailedError(contents[i], add(i).value)])
  {
    var c := CallFor(Stat(fs, contents[i]).value, contents[i]);
    assert calls == calls[..|calls| - 1] + [c];
  }

  /**
   * Do: `create` is the outcome of os.Create, `add(i)` the outcome of the
   * archive call for the i-th content path, and the last two the outcomes of
   * the deferred Close, whose error Do drops.  The ghost `archive` is the
   * handle Do created, so that its final state (closed once, after the
   * content loop) can be stated.
   */
  method Do(spec: BackupSpec, fs: FileSystem, create: Option<Error>, add: nat -> Option<Error>,
            writerClose: Option<Error>, fileClose: Option<Error>)
    returns (err: Option<Error>, calls: seq<ArchiveCall>, log: seq<LogLine>, ghost archive: Option<Archive.Archive>)
    ensures err == Archive.CreateError(spec.format, create)
    ensures Job(err, calls, log) == DoSpec(spec, fs, create, add)
    ensures archive.Some? <==> err.None?
    ensures archive.Some? ==>
              && fresh(archive.value.Writer()) && fresh(archive.value.File())
              && archive.value.Name() == spec.path
              && archive.value.Writer().closed && archive.value.Writer().closes == 1
              && archive.value.Writer().entries == []
              && (archive.value.File().closed <==> writerClose.None?)
  {
    var created := Archive.CreateArchive(spec.path, spec.format, create);
    if created.Err? {
      return Some(created.error), [], [], None;
    }
    var a := created.value;
    calls, log := AddContents(a, fs, spec.contents, add);
    var _ := Archive.Close(a, writerClose, fileClose);
    calls := calls + [CloseCall];
    return None, calls, log, Some(a);
  }

  // ---------------------------------------------------------------------
  // Properties
  // ---------------------------------------------------------------------

  /** How many of `calls` are Close calls. */
  function Closes(calls: seq<ArchiveCall>): nat {
    if calls == [] then 0 else (if calls[0] == CloseCall then 1 else 0) + Closes(calls[1..])
  }

  lemma {:induction false} ClosesAppend(a: seq<ArchiveCall>, b: seq<ArchiveCall>)
    ensures Closes(a + b) == Closes(a) + Closes(b)
  {
    if a != [] {
      assert (a + b)[1..] == a[1..] + b;
      ClosesAppend(a[1..], b);
    } else {
      assert a + b == b;
    }
  }

  lemma {:induction false} ProcessNeverCloses(fs: FileSystem, contents: seq<string>, add: nat -> Option<Error>, i: nat)
    requires i <= |contents|
    ensures Closes(Process(fs, contents, add, i).calls) == 0
    decreases |contents| - i
  {
    if i < |contents| {
      ProcessNeverCloses(fs, contents, add, i + 1);
      if Stat(fs, contents[i]).Ok? {
        var call := CallFor(Stat(fs, contents[i]).value, contents[i]);
        ClosesAppend([call], Process(fs, contents, add, i + 1).calls);
        assert Closes([call]) == 0 by {
          assert [call][1..] == [];
        }
      }
    }
  }

  /**
   * A failed CreateArchive is returned and nothing else happens; a created
   * archive is closed exactly once, as the last call, and Do returns nil.
   */
  lemma ClosedExactlyOnce(spec: BackupSpec, fs: FileSystem, create: Option<Error>, add: nat -> Option<Error>)
    ensures var job := DoSpec(spec, fs, create, add);
            && job.err == Archive.CreateError(spec.format, create)
            && (job.err.Some? ==> job.calls == [] && job.log == [])
            && (job.err.None? ==> Closes(job.calls) == 1 && job.calls[|job.calls| - 1] == CloseCall)
  {
    if Archive.CreateError(spec.format, create).None? {
      var p := Process(fs, spec.contents, add, 0);
      ProcessNeverCloses(fs, spec.contents, add, 0);
      ClosesAppend(p.calls, [CloseCall]);
      assert Closes([CloseCall]) == 1 by {
        assert [CloseCall][1..] == [];
      }
    }
  }

  /**
   * Each content path gives one archive call or one warning, and the path the
   * archive rejects one more log line: at most one more result than paths.
   */
  lemma {:induction false} ProcessBound(fs: FileSystem, contents: seq<string>, add: nat -> Option<Error>, i: nat)
    requires i <= |contents|
    ensures var p := Process(fs, contents, add, i);
            |p.calls| + |p.log| <= |contents| - i + 1
    decreases |contents| - i
  {
    if i < |contents| && !(Stat(fs, contents[i]).Ok? && add(i).Some?) {
      ProcessBound(fs, contents, add, i + 1);
    }
  }

  /** A content path that cannot be stat'ed is logged and skipped, and the loop goes on with the next. */
  lemma StatFailureSkipped(fs: FileSystem, contents: seq<string>, add: nat -> Option<Error>, i: nat)
    requires i < |contents| && Stat(fs, contents[i]).Err?
    ensures var rest := Process(fs, contents, add, i + 1);
            Process(fs, contents, add, i) ==
              Progress(rest.calls, [SkippingWarning(contents[i], Stat(fs, contents[i]).error)] + rest.log)
  {
  }

  /** The archive calls for `paths` with no stop: one per path that stats, in order, by its kind. */
  function Dispatched(fs: FileSystem, paths: seq<string>): seq<ArchiveCall> {
    if paths == [] then []
    else
      var first := match Stat(fs, paths[0]) case Ok(stat) => [CallFor(stat, paths[0])] case Err(_) => [];
      first + Dispatched(fs, paths[1..])
  }

  /** The warnings for `paths` with no stop: one per path that does not stat, in order. */
  function Skipped(fs: FileSystem, paths: seq<string>): seq<LogLine> {
    if paths == [] then []
    else
      var first := match Stat(fs, paths[0]) case Err(e) => [SkippingWarning(paths[0], e)] case Ok(_) => [];
      first + Skipped(fs, paths[1..])
  }

  /** The first content path at or after `i` that stats and that the archive rejects, or |contents|. */
  function FirstFailure(fs: FileSystem, contents: seq<string>, add: nat -> Option<Error>, i: nat): (k: nat)
    requires i <= |contents|
    ensures i <= k <= |contents|
    ensures forall j :: i <= j < k ==> Stat(fs, contents[j]).Err? || add(j).None?
    ensures k < |contents| ==> Stat(fs, contents[k]).Ok? && add(k).Some?
    decreases |contents| - i
  {
    if i == |contents| then i
    else if Stat(fs, contents[i]).Ok? && add(i).Some? then i
    else FirstFailure(fs, contents, add, i + 1)
  }

  /**
   * The loop from path `i` on is the plain dispatch of the content paths up to
   * and including the first one the archive rejects, k: the calls are those
   * of the paths that stat, in order, and the log holds the warnings of those
   * that do not, followed by k's error when some path was rejected.
   */
  predicate IsDispatch(fs: FileSystem, contents: seq<string>, add: nat -> Option<Error>, i: nat)
    requires i <= |contents|
  {
    var k := FirstFailure(fs, contents, add, i);
    var p := Process(fs, contents, add, i);
    && p.calls == Dispatched(fs, contents[i..if k < |contents| then k + 1 else k])
    && p.log == Skipped(fs, contents[i..k]) +
                (if k < |contents| then [BackupFailedError(contents[k], add(k).value)] else [])
  }

  /**
   * The loop is the plain dispatch of the content paths up to and including
   * the first one the archive rejects: the calls are those of the paths that
   * stat, in Contents order and by kind; the log holds a warning for each
   * path that does not stat and, when a path was rejected, its error last.
   * No later path is looked at.
   */
  lemma {:induction false} ProcessIsDispatch(fs: FileSystem, contents: seq<string>, add: nat -> Option<Error>, i: nat)
    requires i <= |contents|
    ensures IsDispatch(fs, contents, add, i)
    decreases |contents| - i
  {
    if i == |contents| {
      assert contents[i..i] == [];
    } else if Stat(fs, contents[i]).Ok? && add(i).Some? {
      DispatchStops(fs, contents, add, i);
    } else {
      ProcessIsDispatch(fs, contents, add, i + 1);
      if Stat(fs, contents[i]).Err? {
        DispatchSkips(fs, contents, add, i);
      } else {
        DispatchAdds(fs, contents, add, i);
      }
    }
  }

  /** A rejected path ends the dispatch with its one call and its error. */
  lemma DispatchStops(fs: FileSystem, contents: seq<string>, add: nat -> Option<Error>, i: nat)
    requires i < |contents| && Stat(fs, contents[i]).Ok? && add(i).Some?
    ensures IsDispatch(fs, contents, add, i)
  {
    assert FirstFailure(fs, contents, add, i) == i;
    assert contents[i..i + 1][1..] == [];
    assert contents[i..i] == [];
  }

  /** A path that does not stat adds its warning in front of the rest of the dispatch. */
  lemma DispatchSkips(fs: FileSystem, contents: seq<string>, add: nat -> Option<Error>, i: nat)
    requires i < |contents| && Stat(fs, contents[i]).Err?
    requires IsDispatch(fs, contents, add, i + 1)
    ensures IsDispatch(fs, contents, add, i)
  {
    var k := FirstFailure(fs, contents, add, i);
    assert k == FirstFailure(fs, contents, add, i + 1);
    var end := if k < |contents| then k + 1 else k;
    var tail := if k < |contents| then [BackupFailedError(contents[k], add(k).value)] else [];
    var rest := Process(fs, contents, add, i + 1);
    SliceHead(contents, i, end);
    SliceHead(contents, i, k);
    var w := SkippingWarning(contents[i], Stat(fs, contents[i]).error);
    var skipped := Skipped(fs, contents[i + 1..k]);
    assert Process(fs, contents, add, i) == Progress(rest.calls, [w] + rest.log);
    assert Dispatched(fs, contents[i..end]) == Dispatched(fs, contents[i + 1..end]);
    assert Skipped(fs, contents[i..k]) == [w] + skipped;
    assert [w] + (skipped + tail) == ([w] + skipped) + tail;
  }

  /** A path the archive accepts adds its call in front of the rest of the dispatch. */
  lemma DispatchAdds(fs: FileSystem, contents: seq<string>, add: nat -> Option<Error>, i: nat)
    requires i < |contents| && Stat(fs, contents[i]).Ok? && add(i).None?
    requires IsDispatch(fs, contents, add, i + 1)
    ensures IsDispatch(fs, contents, add, i)
  {
    var k := FirstFailure(fs, contents, add, i);
    assert k == FirstFailure(fs, contents, add, i + 1);
    var end := if k < |contents| then k + 1 else k;
    var rest := Process(fs, contents, add, i + 1);
    SliceHead(contents, i, end);
    SliceHead(contents, i, k);
    var c := CallFor(Stat(fs, contents[i]).value, contents[i]);
    assert Process(fs, contents, add, i) == Progress([c] + rest.calls, rest.log);
    assert Dispatched(fs, contents[i..end]) == [c] + Dispatched(fs, contents[i + 1..end]);
    assert Skipped(fs, contents[i..k]) == Skipped(fs, contents[i + 1..k]);
  }

  /** The head and the tail of a non-empty slice. */
  lemma SliceHead(s: seq<string>, i: nat, j: nat)
    requires i < j <= |s|
    ensures s[i..j][0] == s[i] && s[i..j][1..] == s[i + 1..j]
  {
  }
}
