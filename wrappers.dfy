/**
  The optional value used for the lookups that may find nothing, and the
  outcome of a computation that may raise.
 */
module Wrappers {

  datatype Option<+T> = None | Some(value: T)

  /** A computation that either finishes or raises with a message. */
  datatype Outcome<+T> = Done(value: T) | Failed(reason: string)
}
