/** JavaScript's `undefined` for a value that may be missing. */
module Wrappers {

  datatype Option<+T> = None | Some(value: T) {

    /** The value, or `default` when missing: what `x || ''` gives for an optional string,
        since the empty string and `undefined` are both falsy and both end up as ''. */
    function GetOr(default: T): T {
      match this
      case Some(v) => v
      case None => default
    }
  }
}
