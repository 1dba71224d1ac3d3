/** The optional value and the success-or-error outcome that stand for the
    original's `undefined`/`null` results and for its thrown, coded errors. */
module Wrappers {

  datatype Option<+T> = None | Some(value: T)

  datatype Result<+T, +E> = Success(value: T) | Failure(error: E) {

    predicate IsFailure() {
      Failure?
    }

    function PropagateFailure<U>(): Result<U, E>
      requires Failure?
    {
      Failure(error)
    }

    function Extract(): T
      requires Success?
    {
      value
    }
  }

  /** A list continued by another, up to the last element and then by that. */
  lemma LastApart<T>(before: seq<T>, after: seq<T>)
    requires after != []
    ensures before + after == before + after[..|after| - 1] + [after[|after| - 1]]
  {
  }
}
