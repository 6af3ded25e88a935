/** Value types shared by every module of the vault model. */
module Common {

  /** One element of a Uint8Array. */
  type Byte = b: int | 0 <= b < 256

  datatype Option<+T> = None | Some(value: T)

  /** The outcome of an operation that may throw: a value, or what was thrown. */
  datatype Result<+T, +E> = Success(value: T) | Failure(error: E)
}
