/** Optional values shared by the server and client modules. */
module Wrappers {

  /** A value that may be absent: `undefined`/`null` in the JavaScript source. */
  datatype Option<T> = None | Some(value: T) {
    function GetOr(default: T): T {
      match this
      case Some(v) => v
      case None => default
    }
  }
}
