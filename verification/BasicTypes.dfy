/** Types that several modules share. */
module BasicTypes {
  datatype Option<+T> = None | Some(value: T)

  datatype Result<+T, +E> = Ok(value: T) | Err(reason: E)

  type byte = n: int | 0 <= n < 256
}
