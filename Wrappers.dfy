/** Option and Result: the "absent" and error returns of the Go code
    (a missing map entry, a non-nil error). */
module Wrappers {

  datatype Option<+T> = None | Some(value: T)

  datatype Result<+R> = Ok(value: R) | Fail(error: string)
}
