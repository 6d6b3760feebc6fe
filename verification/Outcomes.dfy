/** The two wrappers used throughout: an optional value and a result that may be an error. */
module Outcomes {

  datatype Option<+T> = None | Some(value: T)

  /** `Err` carries the message of the Go error that the operation returns. */
  datatype Result<+T> = Ok(value: T) | Err(error: string) {

    predicate IsFailure() {
      Err?
    }

    function PropagateFailure<U>(): Result<U>
      requires Err?
    {
      Err(error)
    }

    function Extract(): T
      requires Ok?
    {
      value
    }
  }
}
