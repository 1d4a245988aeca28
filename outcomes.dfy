/** Error values and the small failure-carrying datatypes shared by the driver
    and the handlers. Go functions return `error` as a second value; here an
    operation returns an `Outcome` (no payload) or a `Result<T>` (payload or
    error). */
module Outcomes {

  /** The kinds of error the driver and the handlers can return. */
  datatype Error =
    | MissingCollection   // empty collection name
    | MissingResource     // empty resource name
    | NotFound            // ENOENT, or the driver's own "unable to find" error
    | NotADirectory       // ENOTDIR: a path component is a regular file
    | IsADirectory        // EISDIR: a file operation on a directory
    | AlreadyExists       // EEXIST: os.Rename onto an existing directory
    | MarshalFailed       // json.MarshalIndent failed
    | UnmarshalFailed     // json.Unmarshal failed

  datatype Option<+T> = None | Some(value: T)

  datatype Outcome = Pass | Fail(error: Error)

  datatype Result<+T> = Ok(value: T) | Err(error: Error)
}
