/** Option and Result: the model's rendering of JavaScript's `null`/`undefined`
    and of a thrown `Error`. */
module Wrappers {

  /** `None` stands for `null` or `undefined`; `Some(v)` for a present value. */
  datatype Option<+T> = None | Some(value: T)

  /** `Ok(v)` is a normal return of `v`; `Err(m)` is `throw new Error(m)`. */
  datatype Result<+T, +E> = Ok(value: T) | Err(error: E)
}
