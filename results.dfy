/** Outcomes of the evaluator: a value, or the runtime_error the program throws. */
module Results {

  /** The four runtime errors the evaluator raises. */
  datatype Error =
    | DivisionByZero                     // "Division by zero"
    | UnknownOperator                    // "Unknown operator"
    | UnknownFunction(name: string)      // "Unknown function: " + name
    | InvalidFunctionFormat(text: string) // "Invalid function format: " + text

  /** A computed value, or the error that was thrown. */
  datatype Result<+T> = Ok(value: T) | Err(error: Error)

  datatype Option<+T> = None | Some(value: T)
}
