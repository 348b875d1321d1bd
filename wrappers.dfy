/** Failure-carrying results shared by the parser and the rule engine. */
module Wrappers {

  /** A value that may be absent; `None` is the source's `None` return. */
  datatype Option<T> = None | Some(value: T)

  /** A value or the message of the exception the source raises instead. */
  datatype Result<T> = Ok(value: T) | Fail(msg: string)
}
