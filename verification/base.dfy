/** Result shapes shared by all components. */
module Base {

  /** A Go pointer or comma-ok pair: absent or present. */
  datatype Option<+T> = None | Some(value: T)

  /** A Go (value, error) pair of which only one side is meaningful. */
  datatype Result<+T, +E> = Ok(value: T) | Err(error: E)
}
