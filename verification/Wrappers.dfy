/** Optional values, results and a few functions shared by the model. */
module Wrappers {
  datatype Option<+T> = None | Some(value: T)

  /** A returned value, or the error thrown in its place. */
  datatype Result<+T, +E> = Ok(value: T) | Err(error: E)

  /** `Math.abs` on exact numbers. */
  function Abs(x: real): (r: real)
    ensures r >= 0.0 && (r == x || r == -x)
  {
    if x < 0.0 then -x else x
  }
}
