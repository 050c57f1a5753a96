/** The results of the engine that may be null (a missing node, an unresolved
    lookup) become Option values. */
module Wrappers {
  datatype Option<+T> = None | Some(value: T) {
    function GetOr(default: T): T {
      match this
      case Some(v) => v
      case None => default
    }
  }
}
