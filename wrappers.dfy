/** Failure-compatible result types shared by the smoothing and forecasting modules. */
module Wrappers {

  /** A value that may be missing: pandas marks a missing entry with NaN. */
  datatype Option<+T> = None | Some(value: T)

  /** The ways the core can refuse its input. */
  datatype Error =
    | InvalidParameter   // a window, span, smoothing factor or test fraction out of range
    | InsufficientData   // too few points to split or to fit

  datatype Result<+T> = Ok(value: T) | Err(error: Error)
}
