/** The two result shapes used throughout the model. */
module Wrappers {

  datatype Option<+T> = None | Some(value: T)

  /** What a step of the program returns together with the state it leaves behind.
      `ok` is false where the Go code returns a non-nil error. */
  datatype Outcome<+S> = Outcome(ok: bool, state: S)
}
