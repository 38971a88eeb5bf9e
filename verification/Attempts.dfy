/** The outcome of a C function that may report an error, or reach behaviour C leaves undefined. */
module Attempts {

  /**
   `Failed`: the function noticed an error and returned its error code.
   `Undefined`: it read or wrote outside the memory it was given, which it does not check.
   */
  datatype Attempt<+T> = Ok(value: T) | Failed | Undefined {

    predicate IsFailure() {
      !Ok?
    }

    function PropagateFailure<U>(): Attempt<U>
      requires !Ok?
    {
      if Failed? then Failed else Undefined
    }

    function Extract(): T
      requires Ok?
    {
      value
    }
  }
}
