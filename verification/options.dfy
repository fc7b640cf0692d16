/** Optional values: an XML element or dictionary entry that may be absent. */
module Options {
  datatype Option<T> = None | Some(value: T)
  {
    /** The value, or `default` when absent (the model of "absent fields default to ..."). */
    function GetOr(default: T): (r: T)
      ensures Some? ==> r == value
      ensures None? ==> r == default
    {
      match this
      case Some(v) => v
      case None => default
    }
  }
}
