/** The optional and failure-carrying values the model uses for JavaScript's
    `null`/`undefined` results and for caught exceptions. */
module Wrappers {

  datatype Option<+T> = None | Some(value: T) {
    function GetOr(default: T): T {
      match this
      case Some(v) => v
      case None => default
    }
  }
}
