/** The driver's optional results and thrown errors as values. */
module Wrappers {

  datatype Option<+T> = None | Some(value: T) {
    predicate IsFailure() {
      None?
    }

    function PropagateFailure<U>(): Option<U>
      requires None?
    {
      None
    }

    function Extract(): T
      requires Some?
    {
      value
    }
  }

  /** `state` is the SQLSTATE of the `OdbcError` the driver throws. */
  datatype Result<+T> = Ok(value: T) | Err(state: string) {
    predicate IsFailure() {
      Err?
    }

    function PropagateFailure<U>(): Result<U>
      requires Err?
    {
      Err(state)
    }

    function Extract(): T
      requires Ok?
    {
      value
    }
  }
}
