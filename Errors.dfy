/** What the modelled code throws, with the messages .NET gives those exceptions. */
module Errors {
  import CyclicDependencyException

  datatype Error =
    /** `ArgumentNullException(paramName, message)` */
    | ArgumentNull(paramName: string, message: string)
    /** The `ArgumentException` of `Dictionary.Add` for a key that is already present. */
    | DuplicateKey(key: string)
    /** An `ArgumentException` with the given message. */
    | Argument(message: string)
    /** `CyclicDependencyException` with its elements. */
    | CyclicDependency(elements: seq<string>)
    /** The `NullReferenceException` of a member access on null. */
    | NullReference
  {
    /** The exception's `Message` property. */
    function Message(): string {
      match this
      case ArgumentNull(p, m) => m + " (Parameter '" + p + "')"
      case DuplicateKey(k) => "An item with the same key has already been added. Key: " + k
      case Argument(m) => m
      case CyclicDependency(e) => CyclicDependencyException.ToMessage(e)
      case NullReference => "Object reference not set to an instance of an object."
    }
  }
}
