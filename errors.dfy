/** The exceptions the core throws or catches, with the `Message` .NET gives them. */
module Errors {

  datatype Exception =
    | InvalidOperationException(text: string)
    | ArgumentException(text: string, paramName: string)
    | NullReferenceException
    | DbUpdateException(text: string)
    | StorageException(text: string)

  /** `Exception.Message`; an `ArgumentException` built with a parameter name
      appends it the way .NET does. */
  function Message(e: Exception): string {
    match e
    case InvalidOperationException(t) => t
    case ArgumentException(t, p) => t + " (Parameter '" + p + "')"
    case NullReferenceException => "Object reference not set to an instance of an object."
    case DbUpdateException(t) => t
    case StorageException(t) => t
  }
}
