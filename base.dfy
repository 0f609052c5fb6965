/** Shared wrappers: optional values, the error kinds of the script, and
    results of calls into collaborators that may fail with an OS error. */
module Base {

  datatype Option<+T> = None | Some(value: T)

  /** The ways processing of one file can fail. */
  datatype Error =
    | UnsupportedFileType(detected: Option<string>)  // UnsupportedFileTypeError
    | InsufficientMetadata                           // InsufficientMetadataError
    | FileAccess                                     // FileNotFoundError / OSError from a collaborator
    | NotComparable(key: string)                     // TypeError: a "time"/"date" key holds no datetime

  datatype Result<+T> = Success(value: T) | Failure(error: Error)

  /** What a collaborator that touches the file system hands back: its value,
      or the OS error it raised. */
  datatype Probe<+T> = Got(value: T) | Unreadable
}
