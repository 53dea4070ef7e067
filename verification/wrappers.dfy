/** Failure-carrying values used by the state manager: an optional value
    (the source's `Optional<bool>`) and the result of a state-cache lookup
    (the source's `gl::Error` together with its out-parameter). */
module Wrappers {

  datatype Option<+T> = None | Some(value: T)

  /** A `gl::Error` other than `GL_NO_ERROR`; `code` is the GL error enum. */
  datatype Error = Error(code: nat)

  datatype Result<+T> = Ok(value: T) | Err(error: Error)
}
