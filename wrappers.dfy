/** Optional values and the one abnormal exit (a Rust panic) the core can take. */
module Wrappers {

  /** Rust's `Option<T>`. */
  datatype Option<+T> = None | Some(value: T)

  /** The result of code that may panic: it either returns `value` or the thread panics
      (in the core, only `Option::unwrap` on `None` does so). */
  datatype Outcome<+T> = Value(value: T) | Panic
}
