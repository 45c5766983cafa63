/** An optional value: a dictionary key that may be absent, a lookup that may fail. */
module Wrappers {

  datatype Option<+T> = None | Some(value: T) {

    /** The value, or `default` when absent (Python's `d.get(key, default)`). */
    function GetOr(default: T): T {
      match this
      case Some(v) => v
      case None => default
    }
  }

  /** Python truthiness of a value that is either absent or a string. */
  predicate Truthy(o: Option<string>) {
    o.Some? && o.value != ""
  }
}
