/** The two error-carrying shapes the scanner's Rust code returns: `Result<T, E>`
    for fallible parsing and spawning, and `Option<T>` for lookups and joins that
    may produce nothing. Both support the `:-` early return, which plays the part
    of Rust's `?` operator. */
module Wrappers {

  /** Rust's `Result<T, E>`: `Ok` carries a value, `Err` the reason it is missing. */
  datatype Result<+T, +E> = Ok(value: T) | Err(error: E) {

    predicate IsFailure() {
      Err?
    }

    /** The same error, retyped for the caller's `:-`. */
    function PropagateFailure<U>(): Result<U, E>
      requires Err?
    {
      Err(error)
    }

    function Extract(): T
      requires Ok?
    {
      value
    }
  }

  /** Rust's `Option<T>`. */
  datatype Option<+T> = None | Some(value: T) {

    predicate IsFailure() {
      None?
    }

    function PropagateFailure<U>(): Option<U>
      requires None?
    {
      None
    }

    function Extract(): T
      requires Some?
    {
      value
    }

    /** Rust's `unwrap_or`: the carried value, or `fallback` for `None`. */
    function UnwrapOr(fallback: T): T {
      if Some? then value else fallback
    }
  }
}
