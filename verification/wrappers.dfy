/**
  The optional and fallible values of the Rust code. `Option` and `Result`
  support Dafny's `:-`, which plays the part of Rust's `?` operator.
*/
module Wrappers {

  /** Rust's `Option<T>`. */
  datatype Option<+T> = None | Some(value: T) {

    predicate IsFailure() {
      None?
    }

    function PropagateFailure<U>(): Option<U>
      requires None?
    {
      None
    }

    function Extract(): T
      requires Some?
    {
      value
    }
  }

  /** Rust's `Result<T, E>`: `Success` stands for `Ok`, `Failure` for `Err`. */
  datatype Result<+R, +E> = Success(value: R) | Failure(error: E) {

    predicate IsFailure() {
      Failure?
    }

    function PropagateFailure<U>(): Result<U, E>
      requires Failure?
    {
      Failure(error)
    }

    function Extract(): R
      requires Success?
    {
      value
    }

    /** `unwrap_or`: the value, or `default` in place of any error. */
    function GetOr(default: R): R {
      if Success? then value else default
    }

    /** `map_err`: the same value, or the error passed through `f`. */
    function MapFailure<NewE>(f: E -> NewE): Result<R, NewE> {
      if Success? then Success(value) else Failure(f(error))
    }
  }

  /** Rust's `Result<(), E>`: success carries nothing. */
  datatype Outcome<+E> = Pass | Fail(error: E)
}
