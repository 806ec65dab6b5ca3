/** Failure-carrying results and the .NET exception kinds the modelled code raises. */
module Wrappers {

  datatype Option<+T> = None | Some(value: T)

  /** The exceptions thrown by the modelled code, by kind. An `ArgumentNullException`
      built with a single string takes it as the parameter name, not as the message. */
  datatype Error =
    | ArgumentNullException(paramName: Option<string>)
    | ArgumentException(message: string)
    | ArgumentExceptionFor(message: string, parameter: string)
    | ArgumentOutOfRangeException
    | InvalidOperationException(message: string)
    | NullReferenceException(message: string)
    | ReadOnlyException(message: string)
    | DataException(message: string)
      /** an exception raised by caller-supplied code (a callback, a retried action) */
    | Raised(id: nat)

  /** What dereferencing null raises. */
  const NullDereference: Error := NullReferenceException("Object reference not set to an instance of an object.")

  /** A value, or the exception that was thrown instead. */
  datatype Result<+T> = Ok(value: T) | Err(error: Error) {
    predicate IsFailure() { Err? }
    function PropagateFailure<U>(): Result<U>
      requires Err?
    {
      Err(error)
    }
    function Extract(): T
      requires Ok?
    {
      value
    }
  }

  /** The completion of a `void` operation: it returned, or it threw. */
  datatype Outcome = Pass | Fail(error: Error) {
    predicate IsFailure() { Fail? }
    function PropagateFailure(): Outcome
      requires Fail?
    {
      this
    }
  }
}
