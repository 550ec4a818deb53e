/** Option and Result values for the model: a nullable value and an
    operation that either yields a value or fails with the exception it
    raises. */
module Results {

  /** A value that may be missing (SQL NULL, Python None). */
  datatype Option<+T> = None | Some(value: T)
  {
    /** `x or default` for a value that is either present or None. */
    function GetOr(default: T): T
    {
      match this
      case Some(v) => v
      case None => default
    }
  }

  /** Why an operation raised: a Python ValueError, either from building a
      date outside the calendar (bad month, year outside 1..9999) or from
      int() on a non-numeral; or an AttributeError, from calling a method
      the value does not have. */
  datatype Failure = InvalidDate | NotAnInteger | MissingAttribute

  datatype Result<+T> = Ok(value: T) | Err(failure: Failure)
}
