/** Failure-carrying datatypes shared by the whole model. */
module Wrappers {

  /** An optional value, as Rust's `Option`. */
  datatype Option<+T> = None | Some(value: T)

  /** The outcome of a fallible call, as `anyhow::Result`: on failure, the text its `to_string` shows. */
  datatype Result<+T> = Success(value: T) | Failure(error: string)

  /** What a state-changing operation returns together with the state it leaves behind. */
  datatype Transition<+T, +S> = Transition(result: Result<T>, state: S)
}
