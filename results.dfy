/** Outcome types shared by the modules: either a value, or the error the
    original Python code raises on that input. */
module Results {

  datatype Result<+T, +E> = Ok(value: T) | Err(error: E)

  datatype Option<+T> = None | Some(value: T)
}
