/** Shared vocabulary of the timing model: an optional value (Rust's `Option`), the two usage errors
    the timers panic with, and a result type that turns those panics into explicit outcomes. */
module Common {

  /** Rust's `Option<T>`: a partial duration, a start reading, or a per-key query answer. */
  datatype Option<T> = None | Some(value: T) {

    /** Rust's `unwrap_or`. */
    function UnwrapOr(fallback: T): T {
      if Some? then value else fallback
    }
  }

  /** The two misuses a timer rejects; in the source both are panics. */
  datatype UsageError =
    | StartWhileRunning   // "cannot start running timer"
    | StopWhileIdle       // "cannot stop paused timer"

  /** Outcome of a state transition: the next state, or the usage error that the source panics with. */
  datatype Result<T> = Ok(value: T) | Err(error: UsageError)
}
