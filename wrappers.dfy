/** Optional and fallible results, standing for Rust's `Option` and `Result`. */
module Wrappers {

  datatype Option<+T> = None | Some(value: T) {

    /** The value of a `Some`; using it on `None` is what an `unwrap` panic would be. */
    function Extract(): T
      requires Some?
    {
      value
    }
  }

  datatype Result<+T, +E> = Ok(value: T) | Err(error: E) {

    /** The value of an `Ok`; using it on `Err` is what an `unwrap` panic would be. */
    function Extract(): T
      requires Ok?
    {
      value
    }
  }
}
