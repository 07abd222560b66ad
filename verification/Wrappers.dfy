/** Failure-compatible wrappers used across the project. */
module Wrappers {

  datatype Option<+T> = None | Some(value: T)

  /** `Err` stands for every error return of the original; error texts are not
      modelled. Functions that only compute also fail where the code panics. */
  datatype Result<+T> = Ok(value: T) | Err {
    predicate IsFailure() { Err? }

    function PropagateFailure<U>(): Result<U>
      requires Err?
    {
      Err
    }

    function Extract(): T
      requires Ok?
    {
      value
    }
  }

  /** What running code comes to: a result, or a panic. */
  datatype Outcome<+T> = Returned(result: Result<T>) | Panicked
}
