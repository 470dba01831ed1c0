/**
 * An immutable snapshot of the filesystem the backup reads from.
 *
 * A node is what `os.Stat`, `os.Lstat` and `os.ReadDir` report about one
 * filesystem object: its base name, its opaque metadata and, for a
 * directory, the outcome of reading its children (in the order `os.ReadDir`
 * returns them, which is by name).  Statting a path is a lookup in a map
 * from paths to stat outcomes; a path the map does not know does not exist.
 */
module FileSystem {
  import opened Common

  /** Metadata the core passes through to the archive headers without looking at it. */
  datatype Meta = Meta(size: nat, mode: nat, modTime: int)

  datatype Kind = Regular | Directory | SymbolicLink

  datatype Node =
    | File(name: string, meta: Meta)
    | Dir(name: string, meta: Meta, listing: Listing)
    | Symlink(name: string, meta: Meta)
  {
    /** fs.FileInfo.IsDir / fs.DirEntry.IsDir */
    predicate IsDir() { Dir? }

    /** The type bits of the mode, as fs.FileMode.Type() reports them. */
    function Kind(): Kind {
      match this
      case File(_, _) => Regular
      case Dir(_, _, _) => Directory
      case Symlink(_, _) => SymbolicLink
    }
  }

  /** The result `os.ReadDir` gives for a directory: its entries, or an error. */
  datatype Listing = Entries(children: seq<Node>) | ReadFailed(err: Error)

  /** The snapshot: for each path that can be stat'ed, the outcome of `os.Stat`. */
  datatype FileSystem = FileSystem(stats: map<string, Result<Node>>)

  /** `os.Stat(path)` against the snapshot. */
  function Stat(fs: FileSystem, path: string): Result<Node> {
    if path in fs.stats then fs.stats[path] else Err(NotExist(path))
  }

  /** `path.Join(parent, child)`, without its lexical cleaning. */
  function Join(parent: string, child: string): string {
    parent + "/" + child
  }
}
