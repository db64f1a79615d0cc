/** Failure-carrying results for the driver's operations: Python's `raise`
    becomes a `Failure`/`Fail` value carrying the reason. */
module Wrappers {

  datatype Option<+T> = None | Some(value: T)

  datatype Result<+R, +E> = Success(value: R) | Failure(error: E)

  datatype Outcome<+E> = Pass | Fail(error: E)

  /** The reasons the driver raises an exception. */
  datatype DriverError =
    | UnsupportedResolution   // set_panel_configuration: width x height not one of the four panels
    | SpeedOutOfRange         // set_waveform_lut: speed > 6
    | RowOutOfRange           // set_lut_row: row > 6
    | UnsupportedGreyscale    // update_greyscale: greyscale not in [32, 16, 8, 4]
}
