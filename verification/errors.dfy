/** Values shared by the launcher model: optional values and the PHP
    throwables that the launcher catches, converts or lets through. */
module Errors {

  datatype Option<+T> = None | Some(value: T)

  /** The throwable classes the launcher tells apart in its catch clauses. */
  datatype ThrowableKind =
    | ConfigurationException  // Codeception\Exception\ConfigurationException
    | OtherException          // any other \Exception
    | EngineError             // a \Throwable that is not an \Exception (\Error and its subclasses)

  /** A thrown object: its class, its integer code and its message. */
  datatype Throwable = Throwable(kind: ThrowableKind, code: int, message: string)

  /** The result of a PHP call that either returns a value or throws. */
  datatype Outcome<+T> = Normal(value: T) | Thrown(error: Throwable)

  /** The loader's "no configuration found" signal: a ConfigurationException with code 404. */
  predicate IsNotFound(t: Throwable)
  {
    t.kind == ConfigurationException && t.code == 404
  }

  /** `new ConfigurationException($message)`: the code defaults to 0. */
  function ConfigurationError(message: string): Throwable
  {
    Throwable(ConfigurationException, 0, message)
  }
}
