/** Failure-compatible wrappers shared by every module of the model. */
module Wrappers {

  /** A value that may be missing: a JavaScript `undefined`, a `NaN`, or a
      computation that ran out of fuel. */
  datatype Option<+T> = None | Some(value: T) {
    predicate IsFailure() { None? }
    function PropagateFailure<U>(): Option<U> requires None? { None }
    function Extract(): T requires Some? { value }
  }

  /** The outcome of an operation that can throw: `Err` carries the thrown message. */
  datatype Result<+T> = Ok(value: T) | Err(error: string) {
    predicate IsFailure() { Err? }
    function PropagateFailure<U>(): Result<U> requires Err? { Err(error) }
    function Extract(): T requires Ok? { value }
  }
}
