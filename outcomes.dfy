/** Error kinds and result wrappers shared by the motor controller and the profile converter.
    Each `Error` stands for an exception the C# code raises. */
module Outcomes {

  datatype Error =
    | LengthMismatch    // "Input lists not of equal length"
    | IndexOutOfRange   // a list indexed outside its bounds (ArgumentOutOfRangeException)
    | SensorOutOfRange  // "Measurement from linear sensor is out of physical range!"

  datatype Result<T> = Ok(value: T) | Err(error: Error)

  /** The outcome of a `void` operation that may throw. */
  datatype Outcome = Pass | Fail(error: Error)

  datatype Option<T> = None | Some(value: T)
}
