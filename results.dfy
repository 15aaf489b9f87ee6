/** Optional values and success-or-failure results, standing in for JavaScript's
    `null` and for thrown exceptions. */
module Results {

  datatype Option<+T> = None | Some(value: T)

  datatype Result<+T, +E> = Ok(value: T) | Err(error: E)
}
