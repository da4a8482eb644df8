/** Optional and either-or values, standing in for JavaScript's `null` /
    `undefined` / `NaN` and for the early `return alert(...)` error exits. */
module Optional {

  /** A value that may be absent (`null`, `undefined`, `NaN`). */
  datatype Option<+T> = None | Some(value: T)

  /** The outcome of a check: a value, or the reason it was refused. */
  datatype Result<+R, +E> = Success(value: R) | Failure(error: E)
}
