/**
 * The optional square contents and the success-or-error outcome of a move.
 * Result supports `:-`, so a sequence of moves stops at the first refusal.
 */
module Wrappers {

  /** An optional value: an empty square is `None`, a square holding piece p is `Some(p)`. */
  datatype Option<+T> = None | Some(value: T)

  /** The outcome of a mutator: the new value, or the reason the call was refused. */
  datatype Result<+R, +E> = Success(value: R) | Failure(error: E) {
    predicate IsFailure() {
      Failure?
    }

    function PropagateFailure<U>(): Result<U, E>
      requires Failure?
    {
      Failure(error)
    }

    function Extract(): R
      requires Success?
    {
      value
    }
  }
}
