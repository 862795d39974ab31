/** The two result shapes used throughout: a value that may be missing, and a call that may throw. */
module Wrappers {

  datatype Option<+T> = None | Some(value: T)

  /** The state a step leaves behind, and whether the step returned normally or threw. */
  datatype Outcome<+S> = Outcome(state: S, ok: bool)
}
