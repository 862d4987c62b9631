/** Optional values: JavaScript's `undefined` for a field or a lookup that has no value. */
module Wrappers {

  datatype Option<+T> = None | Some(value: T) {

    /** The `??` operator: the value when present, the fallback otherwise. */
    function GetOr(fallback: T): T {
      match this
      case Some(v) => v
      case None => fallback
    }
  }
}
