/** Small shared vocabulary: optional values, results, bytes. */
module Common {

  /** A value that may be absent (Python's `None`). */
  datatype Option<T> = None | Some(value: T)

  /** The outcome of an operation that may raise. */
  datatype Result<T, E> = Ok(value: T) | Err(error: E)

  /** One octet of a Python `bytes` object. */
  type byte = x: int | 0 <= x < 256

  function Min(a: int, b: int): int {
    if a <= b then a else b
  }
}
