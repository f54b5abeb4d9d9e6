/** Outcomes shared by the distance layer and the clustering engine.
    Every exception the Python code can raise becomes one `Error` value. */
module Errors {

  datatype Error =
    | ZeroDivision     // a float or integer division by zero
    | MathDomain       // a negative number raised to the power 0.5
    | TypeMismatch     // a list concatenated with a string
    | IndexOutOfRange  // a list subscript past its end
    | ShapeMismatch    // "feature lists have different length!"
    | EmptyCluster     // "cluster is empty!"
    | EmptyInput       // "movies input list is empty!"

  /** A value, or the sentinel -1 that the frequency utilities return. */
  datatype Option<T> = None | Some(value: T)

  /** A value, or the exception that replaced it. */
  datatype Result<T> = Ok(value: T) | Err(error: Error)

  /** Normal return, or the exception raised by a state-changing call. */
  datatype Outcome = Pass | Fail(error: Error)
}
