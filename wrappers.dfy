/** Small value wrappers shared by every module of the model. */
module Wrappers {

  /** PHP's NULL, or a value (which, for a caller-supplied result type, may be that type's own NULL). */
  datatype Option<+T> = None | Some(value: T) {
    function GetOr(default: T): T
    {
      match this
      case Some(v) => v
      case None => default
    }
  }

  /** The result of an operation that either completes or raises a PHP `Error`. */
  datatype Outcome<+E> = Pass | Fail(error: E)

  /** The PHP errors the modelled code can raise. */
  datatype PhpError =
    | TooFewArguments(callee: string)   // `ArgumentCountError`
    | UndefinedMethod(callee: string)   // `Error: Call to undefined method`
}
