/** Failure-carrying values for the places where the Python scripts raise. */
module Outcomes {

  /** A value that may be absent. */
  datatype Option<+T> = None | Some(value: T)

  /** The Python exceptions the modelled code can raise on malformed input. */
  datatype PyError =
    | IndexError     // indexing an empty list or array (`files[-1]`, `x[-1]`)
    | ValueError     // `int()` of a non-numeric string, `argmin` of an empty array, `range` with step 0

  /** Either a computed value or the exception the source would raise instead. */
  datatype Result<+T> = Ok(value: T) | Err(error: PyError) {
    predicate IsFailure() { Err? }

    function PropagateFailure<U>(): Result<U>
      requires Err?
    {
      Err(error)
    }

    function Extract(): T
      requires Ok?
    {
      value
    }
  }
}
