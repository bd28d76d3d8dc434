/** Failure-carrying result types shared by the model.
    - Option<T>: a value or nothing (the source's `Option`).
    - Result<T>: a value or an error message (the source's `Result<_, String>`,
      which is what `FdwError` is).
 */
module Wrappers {

  datatype Option<+T> = None | Some(value: T)

  datatype Result<+T> = Success(value: T) | Failure(error: string)

  /** The unit-valued result the host life-cycle hooks return (`FdwResult`). */
  datatype Status = Ok | Err(message: string)
}
