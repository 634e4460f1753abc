/** Optional values: an unset property, an absent message, an unarmed timer. */
module Wrappers {
  datatype Option<+T> = None | Some(value: T) {
    function GetOr(default: T): (r: T)
      ensures this == Some(r) || (this == None && r == default)
    {
      match this
      case None => default
      case Some(v) => v
    }
  }
}
