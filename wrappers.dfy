/** Optional values: Python's `None` versus a present value, and a dict key
    that may be missing. */
module Wrappers {

  datatype Option<+T> = None | Some(value: T) {

    /** The value when present, `default` otherwise (Python's `d.get(k, default)`). */
    function GetOr(default: T): T {
      match this
      case Some(v) => v
      case None => default
    }
  }

  /** Python truthiness of an optional number: `None` and zero are false. */
  predicate Truthy(x: Option<real>) {
    x.Some? && x.value != 0.0
  }
}
