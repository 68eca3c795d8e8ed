/** Option and Result types shared by every module of the model. */
module Wrappers {

  /** A value that may be absent: a JavaScript `null` or `undefined`, or a row a query did not find. */
  datatype Option<+T> = None | Some(value: T)

  /** The outcome of an operation that may throw: the value it returns, or the message of the
      `Error` it throws. Messages are compared by the controllers, so they are kept as strings. */
  datatype Result<+T> = Ok(value: T) | Err(msg: string)

  /** The `catch` block every service operation ends with: an error is rethrown as a new `Error`
      whose message is `prefix` followed by the original message; a value passes through. */
  function Rethrow<T>(prefix: string, r: Result<T>): (w: Result<T>)
    ensures w.Ok? <==> r.Ok?
    ensures w.Ok? ==> w == r
    ensures w.Err? ==> w.msg == prefix + r.msg
  {
    if r.Ok? then r else Err(prefix + r.msg)
  }
}
