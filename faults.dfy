/** The error values the runner can raise, and the Option/Result wrappers
    that carry them instead of Java exceptions. */
module Faults {

  datatype Option<+T> = None | Some(value: T)

  /** The conditions under which the runner's Java code throws. */
  datatype Fault =
    | UnknownOs                    // IllegalStateException("Unknown OS type")
    | UnknownArch                  // IllegalStateException("Unknown CPU architecture")
    | NumberFormat(input: string)  // NumberFormatException from Integer.parseInt
    | EmptyTestName                // StringIndexOutOfBoundsException from charAt(0) on ""
    | ClassNotFound(name: string)  // ClassNotFoundException from Class.forName

  datatype Result<+T> = Ok(value: T) | Err(error: Fault) {

    predicate IsFailure() { Err? }

    function PropagateFailure<U>(): Result<U>
      requires Err?
    {
      Err(error)
    }

    function Extract(): T
      requires Ok?
    {
      value
    }
  }
}
