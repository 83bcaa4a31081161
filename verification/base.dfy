/** Shared wrappers: optional values, results carrying the message of a raised `ValueError`,
    and the shape of a dynamically typed Python argument. */
module Base {

  datatype Option<+T> = None | Some(value: T)

  /** `Err(msg)` stands for a `ValueError` raised with message `msg`. */
  datatype Result<+T> = Ok(value: T) | Err(msg: string)

  /** The outcome of a procedure that returns nothing but may raise. */
  datatype Outcome = Pass | Fail(msg: string)

  /** A Python argument: `None`, a value of the wrong type, or a value of the expected type. */
  datatype Arg<+T> = Null | WrongType | Given(value: T)

  function GetOr<T>(o: Option<T>, default: T): T
  {
    if o.Some? then o.value else default
  }
}
