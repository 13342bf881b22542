/** Small failure-carrying datatypes shared by the other modules. */
module Wrappers {

  datatype Option<+T> = None | Some(value: T)

  /** `Err` carries the index of the input line whose handler threw. */
  datatype Result<+T> = Ok(value: T) | Err(lineNo: nat)
}
