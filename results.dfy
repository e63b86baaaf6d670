/** Option and Result, and the errors the renderer and the message provider raise to their callers. */
module Results {

  /** A value that may be absent; `None` stands for a C# null or a failed lookup. */
  datatype Option<+T> = None | Some(value: T)

  /** The outcome of an operation that can throw: `Failure` carries the exception. */
  datatype Result<+T, +E> = Success(value: T) | Failure(error: E)

  /** The exceptions that escape to a caller. */
  datatype Error =
    /** A `Require.NotNullOrEmpty` guard rejected the argument named `parameter`. */
    | InvalidArgument(parameter: string)
    /** `FileNotFoundException`: no template resource exists down to the invariant culture. */
    | ResourceNotFound(resourceName: string, resourcePath: string)
  {
    /** The exception text the message provider builds for a missing resource. */
    function Message(): string
    {
      match this
      case InvalidArgument(p) => p
      case ResourceNotFound(n, p) => "Die Ressource " + n + " wurde unter " + p + " nicht gefunden."
    }
  }
}
