/** Small shared datatypes: an optional value and the error outcomes of the array layer. */
module Common {

  /** Python's `None` or a present value. */
  datatype Option<T> = None | Some(value: T)
  {
    function GetOr(default: T): T
    {
      match this
      case Some(v) => v
      case None => default
    }
  }

  /** The exceptions the modelled code can raise. */
  datatype Error =
    | IndexError          // a tuple indexed past its end in get_ndarray_start_stop
    | NegativeDimension   // numpy refuses to allocate a buffer with a negative extent

  /** A value or the exception raised instead of returning it. */
  datatype Result<T> = Ok(value: T) | Err(error: Error)

  function Min(a: int, b: int): int
  {
    if a <= b then a else b
  }
}
