/**
 * Values shared by every part of the backup core: Go's `error`/nil pair as
 * an Option of an Error, a Result for calls that produce a value or fail,
 * bytes, and the diagnostic lines the core hands to the logger.
 */
module Common {

  type byte = b: int | 0 <= b < 256

  datatype Option<+T> = None | Some(value: T)

  datatype Result<+T> = Ok(value: T) | Err(error: Error)

  /** The errors the core produces or passes along. */
  datatype Error =
    /** An error reported by the operating system or by a library call the model treats as opaque. */
    | OsError(detail: string)
    /** `os.Stat`/`os.Lstat` on a path that is not in the snapshot. */
    | NotExist(path: string)
    /** "unsupported backup format: %s" from CreateArchive. */
    | UnsupportedFormat(format: string)
    /** The wrapped error of CopyData: cause, source name, destination name, bytes copied. */
    | CopyFailed(cause: Error, source: string, destination: string, copied: nat)

  /** Lines handed to the logger at warning or error level. */
  datatype LogLine =
    /** Warningf("ReadLink: %v", err) while building a tar header. */
    | ReadLinkWarning(err: Error)
    /** Warningf("Skipping %s: %v", fn, err) when a content path cannot be stat'ed. */
    | SkippingWarning(path: string, err: Error)
    /** Errorf("Failed to backup %s: %v", fn, err) when the archive rejects a content path. */
    | BackupFailedError(path: string, err: Error)
}
