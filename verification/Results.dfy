/** Values that may be absent, and results that may be errors. */
module Results {

  datatype Option<T> = None | Some(value: T)

  datatype Result<T> = Ok(value: T) | Err(error: string)
}
