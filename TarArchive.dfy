/**
 * The tape-archive variant of the archive handle (TarArchive.go): the
 * header builder and the handle whose writer and file the methods drive.
 */
module TarArchive {
  import opened Common
  import opened FileSystem
  import opened Library
  import opened ArchiveSupport

  /** What NewTarHeader produces: the header or the library's error, and the warnings it logged. */
  datatype Built = Built(header: Result<Header>, warnings: seq<LogLine>)

  /**
   * NewTarHeader(stat, name), TarArchive.go:57-91.  `readlink` is os.Readlink
   * and `library` the outcome of tar.FileInfoHeader, which copies the type,
   * link name and metadata from `stat` when it succeeds; the name is then
   * replaced by `name`, with "/" added to a directory that lacks one.
   */
  function NewTarHeader(stat: Node, name: string, readlink: string -> Result<string>, library: Option<Error>): (b: Built)
    ensures b.header.Err? <==> library.Some?
    ensures library.Some? ==> b.header == Err(library.value)
    ensures b.header.Ok? ==>
              && b.header.value.TarHeader?
              && b.header.value.kind == stat.Kind()
              && b.header.value.meta == stat.meta
    ensures b.header.Ok? ==>
              && (b.header.value.name == name || b.header.value.name == name + "/")
              && (b.header.value.name == name + "/" <==> stat.IsDir() && !HasSlashSuffix(name))
              && (stat.IsDir() ==> HasSlashSuffix(b.header.value.name))
    ensures b.header.Ok? ==>
              b.header.value.linkName == if stat.Symlink? && readlink(name).Ok? then readlink(name).value else ""
    ensures b.warnings == if stat.Symlink? && readlink(name).Err? then [ReadLinkWarning(readlink(name).error)] else []
  {
    var link := if stat.Kind() == SymbolicLink then readlink(name) else Ok("");
    var linkName := if link.Ok? then link.value else "";
    var warnings := if link.Err? then [ReadLinkWarning(link.error)] else [];
    match library
    case Some(e) => Built(Err(e), warnings)
    case None =>
      var hdrName := if stat.IsDir() && !HasSlashSuffix(name) then name + "/" else name;
      Built(Ok(TarHeader(hdrName, stat.Kind(), linkName, stat.meta)), warnings)
  }

  /**
   * Building a header again from a name NewTarHeader produced gives that name
   * back: "/" is added to a directory at most once, and other names are kept.
   */
  lemma TarNameIdempotent(stat: Node, name: string, readlink: string -> Result<string>)
    requires NewTarHeader(stat, name, readlink, None).header.Ok?
    ensures var h := NewTarHeader(stat, name, readlink, None).header.value;
            NewTarHeader(stat, h.name, readlink, None).header.value.name == h.name
  {
    var h := NewTarHeader(stat, name, readlink, None).header.value;
    if stat.IsDir() {
      assert HasSlashSuffix(h.name);
    } else {
      assert h.name == name;
    }
  }

  /** TarArchive: the archive file and the tar writer on it. */
  class TarArchive {
    const file: OsFile
    const writer: Writer

    constructor (fp: OsFile)
      ensures file == fp && fresh(writer)
      ensures writer.entries == [] && !writer.closed && writer.closes == 0
    {
      file := fp;
      writer := new Writer();
    }

    /** The name the archive file was created with. */
    function Name(): string {
      file.name
    }

    /** Closes the writer, then the file; a failed writer close leaves the file open and is returned. */
    method Close(writerOutcome: Option<Error>, fileOutcome: Option<Error>) returns (err: Option<Error>)
      modifies writer, file
      ensures writer.closed && writer.entries == old(writer.entries)
      ensures writer.closes == old(writer.closes) + 1
      ensures file.closed == (old(file.closed) || writerOutcome.None?)
      ensures err == if writerOutcome.Some? then writerOutcome else fileOutcome
    {
      err := writer.Close(writerOutcome);
      if err.Some? {
        return err;
      }
      err := file.Close(fileOutcome);
      if err.Some? {
        return err;
      }
      return None;
    }

    method Flush(outcome: Option<Error>) returns (err: Option<Error>)
      ensures err == outcome
    {
      err := writer.Flush(outcome);
    }

    /** writeHeader: hands the header to the tar writer. */
    method WriteHeader(hdr: Header, outcome: Option<Error>) returns (err: Option<Error>)
      modifies writer
      ensures err == outcome
      ensures writer.entries == if outcome.None? then old(writer.entries) + [Entry(hdr, [])] else old(writer.entries)
      ensures writer.closed == old(writer.closed) && writer.closes == old(writer.closes)
    {
      err := writer.WriteHeader(hdr, outcome);
      if err.Some? {
        return err;
      }
      return None;
    }

    /**
     * AddFile: a header built from `stat` and `name`, then the content of
     * `fp`.  A header error is returned; a failed write of the header is
     * swallowed (nil, nothing copied); otherwise the copy's result is returned.
     */
    method AddFile(fp: Source, stat: Node, name: string, readlink: string -> Result<string>,
                   library: Option<Error>, write: Option<Error>)
      returns (err: Option<Error>, warnings: seq<LogLine>)
      modifies writer
      ensures warnings == NewTarHeader(stat, name, readlink, library).warnings
      ensures writer.closed == old(writer.closed) && writer.closes == old(writer.closes)
      ensures match NewTarHeader(stat, name, readlink, library).header
              case Err(e) => err == Some(e) && writer.entries == old(writer.entries)
              case Ok(h) =>
                if write.Some? then
                  err == None && writer.entries == old(writer.entries)
                else
                  && writer.entries == old(writer.entries) + [Entry(h, fp.data[..Copied(fp)])]
                  && err == CopyError(fp, FormatName(Name(), name), name)
    {
      var built := NewTarHeader(stat, name, readlink, library);
      warnings := built.warnings;
      if built.header.Err? {
        return Some(built.header.error), warnings;
      }
      var hdr := built.header.value;
      err := WriteHeader(hdr, write);
      if err.Some? {
        return None, warnings;
      }
      ghost var before := old(writer.entries);
      err := CopyData(writer, FormatName(Name(), name), fp, name);
      assert writer.entries == before + [Entry(hdr, fp.data[..Copied(fp)])] by {
        assert AppendToLast(before + [Entry(hdr, [])], fp.data[..Copied(fp)])
            == (before + [Entry(hdr, [])])[..|before|] + [Entry(hdr, [] + fp.data[..Copied(fp)])];
        assert (before + [Entry(hdr, [])])[..|before|] == before;
        assert [] + fp.data[..Copied(fp)] == fp.data[..Copied(fp)];
      }
    }

    /**
     * AddDir: one header record, no content.  A header error is returned; a
     * failed write of the header is swallowed.
     */
    method AddDir(stat: Node, name: string, readlink: string -> Result<string>,
                  library: Option<Error>, write: Option<Error>)
      returns (err: Option<Error>, warnings: seq<LogLine>)
      modifies writer
      ensures warnings == NewTarHeader(stat, name, readlink, library).warnings
      ensures writer.closed == old(writer.closed) && writer.closes == old(writer.closes)
      ensures match NewTarHeader(stat, name, readlink, library).header
              case Err(e) => err == Some(e) && writer.entries == old(writer.entries)
              case Ok(h) =>
                && err == None
                && writer.entries == if write.Some? then old(writer.entries) else old(writer.entries) + [Entry(h, [])]
    {
      var built := NewTarHeader(stat, name, readlink, library);
      warnings := built.warnings;
      if built.header.Err? {
        return Some(built.header.error), warnings;
      }
      err := WriteHeader(built.header.value, write);
      if err.Some? {
        return None, warnings;
      }
      return None, warnings;
    }
  }

  /** NewTarArchive(path): `create` is the outcome of os.Create(path). */
  method NewTarArchive(path: string, create: Option<Error>) returns (r: Result<TarArchive>)
    ensures create.Some? ==> r == Err(create.value)
    ensures create.None? ==>
              && r.Ok? && fresh(r.value) && fresh(r.value.file) && fresh(r.value.writer)
              && r.value.Name() == path && !r.value.file.closed
              && r.value.writer.entries == [] && !r.value.writer.closed && r.value.writer.closes == 0
  {
    if create.Some? {
      return Err(create.value);
    }
    var fp := new OsFile(path);
    var t := new TarArchive(fp);
    return Ok(t);
  }
}
