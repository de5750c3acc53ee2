/**
 Outcomes of a call into la.js: the value it returns or the error it throws,
 and arguments that may be absent.
 */
module Results {

  /** The error a call throws. */
  datatype Error = TypeError | RangeError

  /** The outcome of a call: the value it returns, or the error it throws. */
  datatype Result<T> = Ok(value: T) | Err(error: Error)

  /** An argument that may be absent (or falsy, which the library treats alike). */
  datatype Option<T> = None | Some(value: T)
}
