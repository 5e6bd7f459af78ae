/** Option and Result, the two shapes every model in this project returns. */
module Wrappers {

  datatype Option<+T> = None | Some(value: T) {
    function GetOr(default: T): T {
      match this
      case Some(v) => v
      case None => default
    }
  }

  /** The Python exception that ends a whole script run. */
  datatype Failure =
    | ValueError     // int() of text that is not an integer
    | TypeError      // an operation applied to None (a missing CSV field or an empty file)
    | AttributeError // a string method called on None
    | IndexError     // a subscript past the end of a list

  datatype Result<+T> = Ok(value: T) | Err(error: Failure) {
    predicate IsFailure() { Err? }
    function PropagateFailure<U>(): Result<U>
      requires Err?
    {
      Err(error)
    }
    function Extract(): T
      requires Ok?
    {
      value
    }
  }
}
