/** Option and Result, the failure-compatible datatypes of the model.
    A `Result` that failed carries the JavaScript exception the source would raise. */
module Wrappers {

  datatype Option<+T> = None | Some(value: T) {

    /** The value, or `default` when there is none. */
    function GetOr(default: T): T {
      match this
      case Some(v) => v
      case None => default
    }
  }

  /** The two kinds of exception the modelled code can raise: a `TypeError` from the
      runtime (a property read on `null`, a call of something that is not a function)
      and an `Error` thrown explicitly with a message. */
  datatype JsError = TypeError | Error(message: string)

  datatype Result<+T> = Ok(value: T) | Thrown(error: JsError) {

    predicate IsFailure() {
      Thrown?
    }

    function PropagateFailure<U>(): Result<U>
      requires Thrown?
    {
      Thrown(error)
    }

    function Extract(): T
      requires Ok?
    {
      value
    }
  }
}
