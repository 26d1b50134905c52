/** Optional values and results shared by every module of the model. */
module Common {

  /** A nullable column or an optional request field. */
  datatype Option<T> = None | Some(value: T) {
    /** `value or default`, like `dict.get(key, default)`. */
    function GetOr(default: T): T {
      match this
      case Some(v) => v
      case None => default
    }
  }

  /** The outcome of an endpoint: a payload, or an error response. */
  datatype Result<T, E> = Ok(value: T) | Err(error: E)
}
