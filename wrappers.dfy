/** Option and Result, the two failure-carrying values the decoders return. */
module Wrappers {

  /**
    A value that may be absent: a Go nil slice or a nil error is `None`.
    Failure-compatible, so a read that runs off the buffer can be
    propagated with `:-`.
  */
  datatype Option<+T> = None | Some(value: T) {
    predicate IsFailure() {
      None?
    }

    function PropagateFailure<U>(): Option<U>
      requires None?
    {
      None
    }

    function Extract(): T
      requires Some?
    {
      value
    }
  }

  /** Either a decoded value or the reason decoding stopped. */
  datatype Result<+T, +E> = Success(value: T) | Failure(error: E)
}
