/** Outcomes of operations that can throw in the modelled program. */
module Wrappers {

  /** Either a value, or the name of the exception the operation throws. */
  datatype Result<T> = Success(value: T) | Failure(error: string)

  datatype Option<T> = None | Some(value: T)
}
