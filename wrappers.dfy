/** Option and Result, the two failure-carrying types the reader works with, as in Rust. */
module Wrappers {

  datatype Option<+T> = None | Some(value: T)

  datatype Result<+T, +E> = Ok(value: T) | Err(error: E)

  /** Rust's `Result::transpose`: `Ok(None)` becomes `None`, everything else is wrapped in `Some`. */
  function Transpose<T, E>(r: Result<Option<T>, E>): (o: Option<Result<T, E>>)
    ensures o.None? <==> r == Ok(None)
    ensures o.Some? && o.value.Ok? ==> r == Ok(Some(o.value.value))
    ensures o.Some? && o.value.Err? ==> r == Err(o.value.error)
  {
    match r
    case Ok(None) => None
    case Ok(Some(v)) => Some(Ok(v))
    case Err(e) => Some(Err(e))
  }
}
