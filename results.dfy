/** Failure-carrying wrappers used by every module of the model: an absent
    value (JavaScript `null`) and a computation that may throw. */
module Results {

  datatype Option<+T> = None | Some(value: T)

  /** `Err` stands for an exception thrown by the source; `error` is what the
      exception carries. */
  datatype Result<+T, +E> = Ok(value: T) | Err(error: E)
}
