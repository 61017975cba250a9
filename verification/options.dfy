/** The optional value used wherever the source uses `Option<T>` or keeps a
    "not found yet" state while scanning. */
module Options {

  datatype Option<+T> = None | Some(value: T) {

    /** The contained value, or `default` when there is none (`unwrap_or`). */
    function GetOr(default: T): (r: T)
      ensures Some? ==> r == value
      ensures None? ==> r == default
    {
      match this
      case Some(v) => v
      case None => default
    }
  }
}
