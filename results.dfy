/** Outcomes shared by every module: a value or a tagged error, instead of a thrown exception. */
module Results {

  datatype Option<+T> = None | Some(value: T)

  datatype Result<+T, +E> = Ok(value: T) | Err(error: E)
}
