/** Optional values and the error-carrying result that the library's entry points return. */
module Results {

  datatype Option<+T> = None | Some(value: T)

  /** The error codes that the modelled operations report. */
  datatype Errno = EINVAL | ENOENT | EMFILE | EADDRINUSE | System(code: nat)

  datatype Result<+T> = Ok(value: T) | Err(error: Errno)
}
