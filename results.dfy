/** The outcome of an operation that Python would end by raising an exception. */
module Results {

  datatype Result<+T, +E> = Ok(value: T) | Err(error: E)

  datatype Option<+T> = None | Some(value: T)

  /** The exceptions the modelled script can raise. */
  datatype PyError =
    | OverflowError   // `date + timedelta` left the range of `datetime.date`
    | KeyError        // a dictionary was indexed with a key it does not hold
}
