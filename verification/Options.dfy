// The small generic datatypes the other modules share.
module Options {
  /** A nullable column or an optional pointer. Equality on it is SQL's
      IS NOT DISTINCT FROM and the source's ptr.Equal. */
  datatype Option<+T> = None | Some(value: T)

  /** A call's value or the error it returns instead. */
  datatype Result<+T, +E> = Ok(value: T) | Err(error: E)
}
