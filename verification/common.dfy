/** Small shared vocabulary: optional values, results, and bytes. */
module Common {

  /** Kotlin's nullable `T?`: `None` stands for `null`. */
  datatype Option<+T> = None | Some(value: T)

  /** Either a value or a typed failure, for outcomes the source reports as results rather than throws. */
  datatype Result<+T, +E> = Success(value: T) | Failure(error: E)

  /** An octet of a file's content, as read by `File.readBytes`. */
  newtype byte = x: int | 0 <= x < 256
}
