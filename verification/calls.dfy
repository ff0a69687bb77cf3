/**
 * The outcome of a Python call that may raise: it either returns a value or
 * raises an exception of one of the kinds the modelled code distinguishes.
 */
module Calls {
  /** The exception classes that the modelled code raises, catches or lets through. */
  datatype Exception =
    | RuntimeError            // the sensor driver's "not ready yet" signal
    | TimeoutError            // raised by the retrying reader after its last attempt
    | ValueError              // bad configuration or an unparsable number
    | JSONDecodeError         // an existing JSON file that does not parse
    | OtherError(name: string) // any other exception class, never caught here

  datatype Call<+T> = Returned(value: T) | Raised(error: Exception)
  {
    /** A failure the retrying reader waits out: the driver raised `RuntimeError`. */
    predicate IsTransient() {
      Raised? && error == RuntimeError
    }
  }
}
