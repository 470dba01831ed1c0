/**
 * Archive.go: the helpers both archive variants use (the "archive:entry"
 * name, the copy of a source into the archive, the trailing-slash rule),
 * and the Archive interface itself, a closed choice between the tar and the
 * zip handle, with the factory that picks one by format name.
 */
module ArchiveSupport {
  import opened Common
  import opened Library

  /** strings.HasSuffix(s, "/") */
  predicate HasSlashSuffix(s: string) {
    |s| > 0 && s[|s| - 1] == '/'
  }

  /** `name` with "/" appended unless it already ends in one. */
  function WithTrailingSlash(name: string): (r: string)
    ensures HasSlashSuffix(r)
    ensures r == name + "/" <==> !HasSlashSuffix(name)
    ensures HasSlashSuffix(name) ==> r == name
  {
    if HasSlashSuffix(name) then name else name + "/"
  }

  lemma TrailingSlashIdempotent(name: string)
    ensures WithTrailingSlash(WithTrailingSlash(name)) == WithTrailingSlash(name)
  {
  }

  /** FormatName(archive, name): "archive name:file name", given the archive's Name(). */
  function FormatName(archiveName: string, name: string): (r: string)
    ensures |r| == |archiveName| + 1 + |name|
    ensures r[..|archiveName|] == archiveName && r[|archiveName|] == ':' && r[|archiveName| + 1..] == name
  {
    archiveName + ":" + name
  }

  /** Within one archive, different entry names give different "archive:entry" names. */
  lemma FormatNameInjective(archiveName: string, name1: string, name2: string)
    requires FormatName(archiveName, name1) == FormatName(archiveName, name2)
    ensures name1 == name2
  {
    assert name1 == FormatName(archiveName, name1)[|archiveName| + 1..];
  }

  /** The count io.Copy reports: every byte without a failure, otherwise those before the failure point. */
  function Copied(src: Source): (nb: nat)
    ensures nb <= |src.data|
    ensures src.failure.None? ==> nb == |src.data|
    ensures src.failure.Some? ==> nb <= src.failure.value.at && (nb < |src.data| ==> nb == src.failure.value.at)
  {
    match src.failure
    case None => |src.data|
    case Some(f) => if f.at < |src.data| then f.at else |src.data|
  }

  /** The error CopyData returns for `src`: none, or the cause with source, destination and count. */
  function CopyError(src: Source, dname: string, sname: string): (r: Option<Error>)
    ensures r.None? <==> src.failure.None?
    ensures r.Some? ==> r.value.CopyFailed? && r.value.cause == src.failure.value.err
    ensures r.Some? ==> r.value.source == sname && r.value.destination == dname && r.value.copied == Copied(src)
  {
    match src.failure
    case None => None
    case Some(f) => Some(CopyFailed(f.err, sname, dname, Copied(src)))
  }

  /**
   * CopyData(dst, dname, src, sname): the first Copied(src) bytes of the
   * source, in order, end up in the body of the record the writer started
   * last; on success that is all of them and nil is returned.
   */
  method CopyData(dst: Writer, dname: string, src: Source, sname: string) returns (err: Option<Error>)
    requires |dst.entries| > 0
    modifies dst
    ensures dst.entries == AppendToLast(old(dst.entries), src.data[..Copied(src)])
    ensures dst.closed == old(dst.closed) && dst.closes == old(dst.closes)
    ensures err == CopyError(src, dname, sname)
  {
    var nb := Copied(src);
    dst.Write(src.data[..nb]);
    if src.failure.Some? {
      return Some(CopyFailed(src.failure.value.err, sname, dname, nb));
    }
    return None;
  }
}

module Archive {
  import opened Common
  import opened FileSystem
  import opened Library
  import opened ArchiveSupport
  import opened Formats
  import Tar = TarArchive
  import Zip = ZipArchive

  /** The Archive interface: one of its two implementations. */
  datatype Archive = TarHandle(tar: Tar.TarArchive) | ZipHandle(zip: Zip.ZipArchive)
  {
    /** Name(): the name of the file the archive is written to. */
    function Name(): string {
      File().name
    }

    /** The writer holding the archive's records. */
    function Writer(): Writer {
      match this
      case TarHandle(t) => t.writer
      case ZipHandle(z) => z.writer
    }

    /** The file the archive is written to. */
    function File(): OsFile {
      match this
      case TarHandle(t) => t.file
      case ZipHandle(z) => z.file
    }
  }

  /** The error CreateArchive(name, format) returns, given the outcome `create` of os.Create. */
  function CreateError(format: string, create: Option<Error>): (r: Option<Error>)
    ensures format != FormatTar && format != FormatZip ==> r == Some(UnsupportedFormat(format))
    ensures format == FormatTar || format == FormatZip ==> r == create
  {
    if format == FormatTar || format == FormatZip then create else Some(UnsupportedFormat(format))
  }

  /** CreateArchive(name, format): a fresh, empty, open tar or zip archive named `name`, or the error. */
  method CreateArchive(name: string, format: string, create: Option<Error>) returns (r: Result<Archive>)
    ensures r.Err? <==> CreateError(format, create).Some?
    ensures r.Err? ==> r.error == CreateError(format, create).value
    ensures r.Ok? ==>
              && (r.value.TarHandle? <==> format == FormatTar)
              && (r.value.ZipHandle? <==> format == FormatZip)
              && r.value.Name() == name
              && fresh(r.value.Writer()) && fresh(r.value.File())
              && r.value.Writer().entries == [] && !r.value.Writer().closed && !r.value.File().closed
              && r.value.Writer().closes == 0
  {
    if format == FormatTar {
      var t := Tar.NewTarArchive(name, create);
      if t.Err? {
        return Err(t.error);
      }
      return Ok(TarHandle(t.value));
    } else if format == FormatZip {
      var z := Zip.NewZipArchive(name, create);
      if z.Err? {
        return Err(z.error);
      }
      return Ok(ZipHandle(z.value));
    } else {
      return Err(UnsupportedFormat(format));
    }
  }

  /** Close: writer first, then file; the first error is returned, and a failed writer close leaves the file open. */
  method Close(a: Archive, writerOutcome: Option<Error>, fileOutcome: Option<Error>) returns (err: Option<Error>)
    modifies a.Writer(), a.File()
    ensures a.Writer().closed && a.Writer().entries == old(a.Writer().entries)
    ensures a.Writer().closes == old(a.Writer().closes) + 1
    ensures a.File().closed == (old(a.File().closed) || writerOutcome.None?)
    ensures err == if writerOutcome.Some? then writerOutcome else fileOutcome
  {
    match a
    case TarHandle(t) => err := t.Close(writerOutcome, fileOutcome);
    case ZipHandle(z) => err := z.Close(writerOutcome, fileOutcome);
  }

  method Flush(a: Archive, outcome: Option<Error>) returns (err: Option<Error>)
    ensures err == outcome
  {
    match a
    case TarHandle(t) => err := t.Flush(outcome);
    case ZipHandle(z) => err := z.Flush(outcome);
  }

  /** The records after an AddFile or AddDir: the old ones unchanged and at most one more. */
  predicate AddsAtMostOne(before: seq<Entry>, after: seq<Entry>) {
    after == before || (|after| == |before| + 1 && after[..|before|] == before)
  }

  /**
   * AddFile through the interface: at most one record is added, it holds the
   * copied bytes of `fp` and the kind and metadata of `stat`, and the writer
   * stays open.  The zip variant adds it whenever it reports success; the tar
   * variant may report success after a failed header write that added
   * nothing.  The last two clauses give each variant's full result.
   */
  method AddFile(a: Archive, fp: Source, stat: Node, name: string, readlink: string -> Result<string>,
                 library: Option<Error>, write: Option<Error>)
    returns (err: Option<Error>, warnings: seq<LogLine>)
    modifies a.Writer()
    ensures a.Writer().closed == old(a.Writer().closed) && a.Writer().closes == old(a.Writer().closes)
    ensures AddsAtMostOne(old(a.Writer().entries), a.Writer().entries)
    ensures |a.Writer().entries| > |old(a.Writer().entries)| ==>
              var e := a.Writer().entries[|old(a.Writer().entries)|];
              e.content == fp.data[..Copied(fp)] && (e.header.name == name || (stat.IsDir() && e.header.name == name + "/"))
    ensures |a.Writer().entries| > |old(a.Writer().entries)| ==>
              var e := a.Writer().entries[|old(a.Writer().entries)|];
              e.header.kind == stat.Kind() && e.header.meta == stat.meta
    ensures a.ZipHandle? && err.None? ==> |a.Writer().entries| == |old(a.Writer().entries)| + 1
    ensures a.TarHandle? ==>
              && warnings == Tar.NewTarHeader(stat, name, readlink, library).warnings
              && match Tar.NewTarHeader(stat, name, readlink, library).header
                 case Err(e) => err == Some(e) && a.Writer().entries == old(a.Writer().entries)
                 case Ok(h) =>
                   if write.Some? then
                     err == None && a.Writer().entries == old(a.Writer().entries)
                   else
                     && a.Writer().entries == old(a.Writer().entries) + [Entry(h, fp.data[..Copied(fp)])]
                     && err == CopyError(fp, FormatName(a.Name(), name), name)
    ensures a.ZipHandle? ==>
              && warnings == []
              && match Zip.NewZipHeader(stat, name, library)
                 case Err(e) => err == Some(e) && a.Writer().entries == old(a.Writer().entries)
                 case Ok(h) =>
                   if write.Some? then
                     err == write && a.Writer().entries == old(a.Writer().entries)
                   else
                     && a.Writer().entries == old(a.Writer().entries) + [Entry(h, fp.data[..Copied(fp)])]
                     && err == CopyError(fp, FormatName(a.Name(), name), name)
  {
    match a
    case TarHandle(t) =>
      err, warnings := t.AddFile(fp, stat, name, readlink, library, write);
    case ZipHandle(z) =>
      err := z.AddFile(fp, stat, name, library, write);
      warnings := [];
  }

  /**
   * AddDir through the interface: not recursive, at most one record with no
   * content.  The zip variant always ends its name with "/", the tar variant
   * only when `stat` is a directory.  As for AddFile, only the zip variant
   * reports every failure to write it.
   */
  method AddDir(a: Archive, stat: Node, name: string, readlink: string -> Result<string>,
                library: Option<Error>, write: Option<Error>)
    returns (err: Option<Error>, warnings: seq<LogLine>)
    modifies a.Writer()
    ensures a.Writer().closed == old(a.Writer().closed) && a.Writer().closes == old(a.Writer().closes)
    ensures AddsAtMostOne(old(a.Writer().entries), a.Writer().entries)
    ensures |a.Writer().entries| > |old(a.Writer().entries)| ==>
              var e := a.Writer().entries[|old(a.Writer().entries)|];
              && e.content == []
              && e.header.name == if stat.IsDir() || a.ZipHandle? then WithTrailingSlash(name) else name
    ensures |a.Writer().entries| > |old(a.Writer().entries)| ==>
              var e := a.Writer().entries[|old(a.Writer().entries)|];
              e.header.kind == stat.Kind() && e.header.meta == stat.meta
    ensures a.ZipHandle? && err.None? ==> |a.Writer().entries| == |old(a.Writer().entries)| + 1
    ensures a.TarHandle? ==>
              && warnings == Tar.NewTarHeader(stat, name, readlink, library).warnings
              && match Tar.NewTarHeader(stat, name, readlink, library).header
                 case Err(e) => err == Some(e) && a.Writer().entries == old(a.Writer().entries)
                 case Ok(h) =>
                   && err == None
                   && a.Writer().entries == if write.Some? then old(a.Writer().entries) else old(a.Writer().entries) + [Entry(h, [])]
    ensures a.ZipHandle? ==>
              && warnings == []
              && match Zip.NewZipHeader(stat, WithTrailingSlash(name), library)
                 case Err(e) => err == Some(e) && a.Writer().entries == old(a.Writer().entries)
                 case Ok(h) =>
                   && err == write
                   && a.Writer().entries == if write.Some? then old(a.Writer().entries) else old(a.Writer().entries) + [Entry(h, [])]
  {
    match a
    case TarHandle(t) =>
      err, warnings := t.AddDir(stat, name, readlink, library, write);
    case ZipHandle(z) =>
      err := z.AddDir(stat, name, library, write);
      warnings := [];
  }
}
