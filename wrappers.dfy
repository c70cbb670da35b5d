/** Optional values, standing for JavaScript's `null`/`undefined` and Python's `None`. */
module Wrappers {
  datatype Option<T> = None | Some(value: T)
  {
    /** `x ?? d` / `x or d` for an optional value. */
    function GetOr(d: T): T
    {
      if Some? then value else d
    }
  }
}
