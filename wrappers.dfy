/** Optional values, used for the dictionary keys a descriptor may leave out. */
module Wrappers {

  datatype Option<T> = None | Some(value: T) {

    /** `d.get(key, default)` once the lookup has produced this option */
    function GetOr(default: T): T
    {
      match this
      case Some(v) => v
      case None => default
    }
  }
}
