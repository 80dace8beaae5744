/** The exceptions raised by the glyph code, and a failure-compatible result
    type so that each operation returns either its value or the exception the
    Python code would raise. */
module Results {

  /** One constructor per exception the Python code can raise. */
  datatype Error =
    | LengthError(length: nat)   // `Character` given a string whose length is not 1
    | ValueError                 // a non-positive `size`
    | KeyError(key: string)      // a character that has no entry in the font table
    | NameError(name: string)    // an unbound name, only reachable in the code as written
    | TypeError                  // an ill-typed operand, only reachable in the code as written

  /** Either the value of a successful call or the exception it raises. */
  datatype Result<+T> = Ok(value: T) | Err(error: Error) {

    predicate IsFailure() {
      Err?
    }

    function PropagateFailure<U>(): Result<U>
      requires Err?
    {
      Err(error)
    }

    function Extract(): T
      requires Ok?
    {
      value
    }
  }
}
