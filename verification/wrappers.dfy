/** Optional values for the nullable references of the migration code, and results for the steps that may throw. */
module Wrappers {

  datatype Option<+T> = None | Some(value: T)

  /** The outcome of a step that may throw: its value, or the reason it failed. */
  datatype Result<+T> = Success(value: T) | Failure(error: string)

}
