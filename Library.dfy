/**
 * The library objects the archive layer writes through, reduced to what the
 * core can observe of them.
 *
 * `Writer` stands for both `*tar.Writer` and `*zip.Writer`: it holds the
 * records written so far, each a header followed by the bytes of its body,
 * and whether Close has been called.  `OsFile` stands for the `*os.File`
 * the archive is created on.  Every library call that can fail takes its
 * outcome as a parameter: the model fixes what the core does with that
 * outcome, not why the library produced it.  Byte-level encoding (blocks,
 * checksums, trailers, compression) stays inside the library.
 */
module Library {
  import opened Common
  import opened FileSystem

  /** zip.Deflate: compression method 8, section 4.4.5 of PKWARE's APPNOTE.TXT (RFC 1951 data). */
  const Deflate: nat := 8

  /** The header fields the core sets or reads; the rest of the metadata passes through opaquely. */
  datatype Header =
    | TarHeader(name: string, kind: Kind, linkName: string, meta: Meta)
    | ZipHeader(name: string, kind: Kind, compression: nat, meta: Meta)

  /** One record of an archive: its header, then its content bytes. */
  datatype Entry = Entry(header: Header, content: seq<byte>)

  /** Where a copy from a source stops with an error: after `at` bytes at most. */
  datatype Failure = Failure(at: nat, err: Error)

  /** An io.Reader feeding an archive body: the bytes it yields and, if reading or writing them on fails, where. */
  datatype Source = Source(data: seq<byte>, failure: Option<Failure>)

  /** `entries` with `data` added to the body of the last record. */
  function AppendToLast(entries: seq<Entry>, data: seq<byte>): seq<Entry>
    requires |entries| > 0
  {
    var last := entries[|entries| - 1];
    entries[..|entries| - 1] + [last.(content := last.content + data)]
  }

  /** The archive writer: tar.Writer or zip.Writer. */
  class Writer {
    var entries: seq<Entry>
    var closed: bool
    /** How many times Close has been called on this writer. */
    ghost var closes: nat

    /** tar.NewWriter / zip.NewWriter */
    constructor ()
      ensures entries == [] && !closed && closes == 0
    {
      entries, closed, closes := [], false, 0;
    }

    /** tar.Writer.WriteHeader / zip.Writer.CreateHeader: on success a new record is started. */
    method WriteHeader(h: Header, outcome: Option<Error>) returns (err: Option<Error>)
      modifies this
      ensures err == outcome
      ensures entries == if outcome.None? then old(entries) + [Entry(h, [])] else old(entries)
      ensures closed == old(closed) && closes == old(closes)
    {
      if outcome.None? {
        entries := entries + [Entry(h, [])];
      }
      err := outcome;
    }

    /** Write: the bytes go to the body of the record started last. */
    method Write(data: seq<byte>)
      requires |entries| > 0
      modifies this
      ensures entries == AppendToLast(old(entries), data)
      ensures closed == old(closed) && closes == old(closes)
    {
      entries := AppendToLast(entries, data);
    }

    /** Flush: pushes buffered data to the file; the records are unchanged. */
    method Flush(outcome: Option<Error>) returns (err: Option<Error>)
      ensures err == outcome
    {
      err := outcome;
    }

    /** Close: writes the trailer; after it the writer is closed whatever the outcome. */
    method Close(outcome: Option<Error>) returns (err: Option<Error>)
      modifies this
      ensures closed && entries == old(entries) && err == outcome
      ensures closes == old(closes) + 1
    {
      closed := true;
      closes := closes + 1;
      err := outcome;
    }
  }

  /** The *os.File an archive writes to. */
  class OsFile {
    const name: string
    var closed: bool

    /** os.Create(name) that succeeded. */
    constructor (name: string)
      ensures this.name == name && !closed
    {
      this.name := name;
      closed := false;
    }

    method Close(outcome: Option<Error>) returns (err: Option<Error>)
      modifies this
      ensures closed && err == outcome
    {
      closed := true;
      err := outcome;
    }
  }
}
