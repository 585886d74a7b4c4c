/** Go's (value, error) conventions, as the rest of the model needs them. */
module Wrappers {

  /** A Go pointer or error that may be nil. */
  datatype Option<T> = None | Some(value: T)

  /** The answer of an opaque collaborator: a value, or an error carrying its message. */
  datatype Result<T> = Ok(value: T) | Err(error: string)
}
