/** Failure-carrying values shared by the other modules: `Option` for a lookup
    or conversion that may have nothing to return, `Result` for an operation
    that either yields a value or fails with an error (Go's `(value, err)` pair
    where exactly one side is meaningful). */
module Results {

  datatype Option<+T> = None | Some(value: T)

  datatype Result<+T, +E> = Ok(value: T) | Err(error: E)
}
