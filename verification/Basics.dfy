/** What several components share. */
module Basics {
  /** A value that may be missing: Python's `None`. */
  datatype Option<+T> = None | Some(value: T)

  /** How a step ends: done; failed with no effect; or reported as failed after it took effect
      (a timeout). */
  datatype Fate = Done | Failed | FailedAfter
}
