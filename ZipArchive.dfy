/**
 * The zip variant of the archive handle (ZipArchive.go): the header builder
 * and the handle whose writer and file the methods drive.
 */
module ZipArchive {
  import opened Common
  import opened FileSystem
  import opened Library
  import opened ArchiveSupport

  /**
   * NewZipHeader(stat, name), ZipArchive.go:59-69.  `library` is the outcome
   * of zip.FileInfoHeader, which fills the sizes, times and mode from `stat`;
   * the name is then replaced by `name` and the method forced to Deflate.
   */
  function NewZipHeader(stat: Node, name: string, library: Option<Error>): (r: Result<Header>)
    ensures r.Err? <==> library.Some?
    ensures library.Some? ==> r == Err(library.value)
    ensures r.Ok? ==>
              && r.value.ZipHeader?
              && r.value.name == name
              && r.value.compression == Deflate
              && r.value.kind == stat.Kind()
              && r.value.meta == stat.meta
  {
    match library
    case Some(e) => Err(e)
    case None =>
      Ok(ZipHeader(name, stat.Kind(), Deflate, stat.meta))
  }

  /** ZipArchive: the archive file and the zip writer on it. */
  class ZipArchive {
    const file: OsFile
    const writer: Writer

    constructor (fp: OsFile)
      ensures file == fp && fresh(writer)
      ensures writer.entries == [] && !writer.closed && writer.closes == 0
    {
      file := fp;
      writer := new Writer();
    }

    /** The name the archive file was created with. */
    function Name(): string {
      file.name
    }

    /** Closes the writer, then the file; a failed writer close leaves the file open and is returned. */
    method Close(writerOutcome: Option<Error>, fileOutcome: Option<Error>) returns (err: Option<Error>)
      modifies writer, file
      ensures writer.closed && writer.entries == old(writer.entries)
      ensures writer.closes == old(writer.closes) + 1
      ensures file.closed == (old(file.closed) || writerOutcome.None?)
      ensures err == if writerOutcome.Some? then writerOutcome else fileOutcome
    {
      err := writer.Close(writerOutcome);
      if err.Some? {
        return err;
      }
      err := file.Close(fileOutcome);
      if err.Some? {
        return err;
      }
      return None;
    }

    method Flush(outcome: Option<Error>) returns (err: Option<Error>)
      ensures err == outcome
    {
      err := writer.Flush(outcome);
    }

    /**
     * AddFile: a header named exactly `name`, then the content of `fp`.  A
     * header error and a CreateHeader error are both returned.
     */
    method AddFile(fp: Source, stat: Node, name: string, library: Option<Error>, create: Option<Error>)
      returns (err: Option<Error>)
      modifies writer
      ensures writer.closed == old(writer.closed) && writer.closes == old(writer.closes)
      ensures match NewZipHeader(stat, name, library)
              case Err(e) => err == Some(e) && writer.entries == old(writer.entries)
              case Ok(h) =>
                if create.Some? then
                  err == create && writer.entries == old(writer.entries)
                else
                  && writer.entries == old(writer.entries) + [Entry(h, fp.data[..Copied(fp)])]
                  && err == CopyError(fp, FormatName(Name(), name), name)
    {
      var hdr := NewZipHeader(stat, name, library);
      if hdr.Err? {
        return Some(hdr.error);
      }
      err := writer.WriteHeader(hdr.value, create);
      if err.Some? {
        return err;
      }
      ghost var before := old(writer.entries);
      err := CopyData(writer, FormatName(Name(), name), fp, name);
      assert writer.entries == before + [Entry(hdr.value, fp.data[..Copied(fp)])] by {
        assert (before + [Entry(hdr.value, [])])[..|before|] == before;
        assert [] + fp.data[..Copied(fp)] == fp.data[..Copied(fp)];
      }
    }

    /**
     * AddDir: one header record named `name` with a "/" appended unless it
     * already ends in one, and no content.  Both errors are returned.
     */
    method AddDir(stat: Node, name: string, library: Option<Error>, create: Option<Error>)
      returns (err: Option<Error>)
      modifies writer
      ensures writer.closed == old(writer.closed) && writer.closes == old(writer.closes)
      ensures match NewZipHeader(stat, WithTrailingSlash(name), library)
              case Err(e) => err == Some(e) && writer.entries == old(writer.entries)
              case Ok(h) =>
                && err == create
                && writer.entries == if create.Some? then old(writer.entries) else old(writer.entries) + [Entry(h, [])]
    {
      var path := name;
      if !HasSlashSuffix(path) {
        path := path + "/";
      }
      var hdr := NewZipHeader(stat, path, library);
      if hdr.Err? {
        return Some(hdr.error);
      }
      err := writer.WriteHeader(hdr.value, create);
      if err.Some? {
        return err;
      }
      return None;
    }
  }

  /** NewZipArchive(path): `create` is the outcome of os.Create(path). */
  method NewZipArchive(path: string, create: Option<Error>) returns (r: Result<ZipArchive>)
    ensures create.Some? ==> r == Err(create.value)
    ensures create.None? ==>
              && r.Ok? && fresh(r.value) && fresh(r.value.file) && fresh(r.value.writer)
              && r.value.Name() == path && !r.value.file.closed
              && r.value.writer.entries == [] && !r.value.writer.closed && r.value.writer.closes == 0
  {
    if create.Some? {
      return Err(create.value);
    }
    var fp := new OsFile(path);
    var z := new ZipArchive(fp);
    return Ok(z);
  }
}
