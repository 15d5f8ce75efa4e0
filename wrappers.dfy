/** Optional values and failure results shared by the modules of the model. */
module Wrappers {

  /** A value that may be absent: a JavaScript `undefined`/`null` or an omitted optional field. */
  datatype Option<+T> = None | Some(value: T) {
    function GetOr(default: T): T {
      match this
      case Some(v) => v
      case None => default
    }
  }

  /** The outcome of an operation that can throw: the value it returns or the message of its `Error`. */
  datatype Result<+R> = Success(value: R) | Failure(error: string)
}
