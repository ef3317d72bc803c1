/** Optional values (C# null, a missing Python dict key) and results with an
    error (C# exceptions and error returns). */
module Wrappers {

  datatype Option<T> = None | Some(value: T)

  datatype Result<T, E> = Ok(value: T) | Err(error: E)
}
