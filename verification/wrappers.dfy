/** Optional values: JavaScript's `undefined`/`null` versus a present value. */
module Wrappers {

  datatype Option<+T> = None | Some(value: T) {

    /** The value if present, otherwise `default` (JavaScript's `??`). */
    function GetOr(default: T): T {
      match this
      case Some(v) => v
      case None => default
    }

    /** This option if present, otherwise `other` (`a ?? b` on two optional values). */
    function OrElse(other: Option<T>): Option<T> {
      if Some? then this else other
    }
  }
}
