/**
 * The two outcome types of the model. `Option` is what a reader or parser
 * returns (a record, or nothing when the bytes or tokens do not form one);
 * `Result` is what the aggregator and the binary writers return (a value, or
 * the error the Python code would raise). Both support `:-`, so a reader or
 * writer stops at its first failure.
 */
module Wrappers {

  datatype Option<+T> = None | Some(value: T) {

    predicate IsFailure() {
      None?
    }

    function PropagateFailure<U>(): Option<U>
      requires None?
    {
      None
    }

    function Extract(): T
      requires Some?
    {
      value
    }
  }

  datatype Result<+R, +E> = Success(value: R) | Failure(error: E) {

    predicate IsFailure() {
      Failure?
    }

    function PropagateFailure<U>(): Result<U, E>
      requires Failure?
    {
      Failure(error)
    }

    function Extract(): R
      requires Success?
    {
      value
    }
  }

  /** The elements of an Option as a sequence of length zero or one. */
  function OptionToSeq<T>(o: Option<T>): (s: seq<T>)
  {
    match o
    case None => []
    case Some(v) => [v]
  }
}
