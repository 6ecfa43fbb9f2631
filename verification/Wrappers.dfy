/** Values that may be absent, and results that may be errors. */
module Wrappers {

  datatype Option<+T> = None | Some(value: T)

  datatype Result<+T, +E> = Ok(value: T) | Err(error: E)

  /** The exceptions the planners and the control plane raise. */
  datatype Error = ValueError | PermissionError | CoverageGap
}
