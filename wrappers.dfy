/** Optional values, used wherever the source returns None or a missing row. */
module Wrappers {

  datatype Option<T> = None | Some(value: T) {

    /** The value, or a default when absent, as `dict.get(key, default)` does; an empty value is kept. */
    function GetOr(default: T): T
    {
      match this
      case Some(v) => v
      case None => default
    }
  }
}
