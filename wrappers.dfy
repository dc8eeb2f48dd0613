/** Null references and thrown exceptions of the C# program, as values.

    - `Option<T>` stands for a reference that may be `null`.
    - `Result<T>` is what a member returns when it may throw: `Failure(e)` is
      the exception `e` that the C# member throws instead of returning.
 */
module Wrappers {

  datatype Option<+T> = None | Some(value: T) {
    /** The value, or `default` for `null` (the C# `??` operator). */
    function GetOr(default: T): T {
      match this
      case Some(v) => v
      case None => default
    }
  }

  datatype Result<+T> = Success(value: T) | Failure(error: Error)

  /** The exceptions the modelled code throws, with the arguments it passes to them. */
  datatype Error =
    | ArgumentNull(paramName: string)
    | Argument(message: string, paramName: string)
    | ArgumentWithoutName(message: string)
    | ObjectDisposed(objectName: string)
    | InvalidOperation(message: string)
    | NotSupported
    | NullReference

  /** `GetType().FullName` of the exception. */
  function TypeName(e: Error): string {
    match e
    case ArgumentNull(_) => "System.ArgumentNullException"
    case Argument(_, _) => "System.ArgumentException"
    case ArgumentWithoutName(_) => "System.ArgumentException"
    case ObjectDisposed(_) => "System.ObjectDisposedException"
    case InvalidOperation(_) => "System.InvalidOperationException"
    case NotSupported => "System.NotSupportedException"
    case NullReference => "System.NullReferenceException"
  }

  /** `Message` of the exception, in the .NET Framework's wording. */
  function Message(e: Error): string {
    match e
    case ArgumentNull(p) => "Value cannot be null.\r\nParameter name: " + p
    case Argument(m, p) => m + "\r\nParameter name: " + p
    case ArgumentWithoutName(m) => m
    case ObjectDisposed(n) => "Cannot access a disposed object.\r\nObject name: '" + n + "'."
    case InvalidOperation(m) => m
    case NotSupported => "Specified method is not supported."
    case NullReference => "Object reference not set to an instance of an object."
  }
}
