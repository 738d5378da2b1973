/** Option and Result values used for lookups that may find nothing and for
    the renderer's exceptions. */
module Options {

  datatype Option<+T> = None | Some(value: T)

  datatype Result<+T, +E> = Success(value: T) | Failure(error: E)
}
