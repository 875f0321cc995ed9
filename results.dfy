/** The optional and success-or-error values used wherever the source returns
    "nothing found", throws, or would keep sampling forever. */
module Results {

  datatype Option<+T> = None | Some(value: T)

  datatype Result<+T, +E> = Ok(value: T) | Err(error: E)
}
