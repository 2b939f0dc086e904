/** Failure-carrying values used in place of Java's null and exceptions. */
module Wrappers {

  /** A value that may be absent; stands for a nullable Java reference. */
  datatype Option<+T> = None | Some(value: T)

  /** The exceptions the engine throws, by the Java class that carries them. */
  datatype Error =
    | IndexOutOfBounds   // IndexOutOfBoundsException and ArrayIndexOutOfBoundsException
    | NullPointer        // NullPointerException
    | IllegalArgument    // IllegalArgumentException (also NumberFormatException)
    | Unpackable         // UnpackableException, the reader's format error

  /** The outcome of an operation that returns a value or throws. */
  datatype Result<+T> = Ok(value: T) | Err(error: Error) {
    /** With the three members below, `:-` passes an exception on as a Java method does. */
    predicate IsFailure() {
      Err?
    }

    function PropagateFailure<U>(): Result<U>
      requires Err?
    {
      Err(error)
    }

    function Extract(): T
      requires Ok?
    {
      value
    }
  }

  /** Success of an operation that returns nothing, or the exception it throws. */
  datatype Outcome = Pass | Fail(error: Error)
}
