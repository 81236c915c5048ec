/** PHP exceptions as values, and the result of an operation that may throw one. */
module Exceptions {

  /**
   * A thrown exception, or a PHP error that the service's error handler turns
   * into one: its class name, message, and the file and line it was raised at.
   */
  datatype Fault = Fault(cls: string, message: string, file: string, line: int)

  /** What a PHP call that may throw gives back: its value, or the exception it threw. */
  datatype Outcome<+T> = Ok(value: T) | Threw(fault: Fault)

  /**
   * A PHP error (warning, recoverable error) raised at the given place. The
   * service's error handler wraps it as an `MdeService\Error` built from the
   * message, file and line.
   */
  function PhpError(message: string, file: string, line: int): Fault {
    Fault("MdeService\\Error", message, file, line)
  }
}
