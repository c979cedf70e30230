// Shared by every module of the model.
module Options {
  datatype Option<+T> = None | Some(value: T)

  datatype Result<+T, +E> = Ok(value: T) | Err(error: E)

  /** An optional element as a sequence. */
  function Opt<T>(o: Option<T>): seq<T> {
    if o.Some? then [o.value] else []
  }
}
