/** Values shared by every part of the binding: nullable references, the Java
    exceptions the binding raises, and the result of a call that may throw. */
module Outcomes {

  /** A reference that may be null (None), such as a Java argument of enum type. */
  datatype Option<T> = None | Some(value: T)

  /** A Java array reference: null, or the elements it holds. */
  type NullableArray<T> = Option<seq<T>>

  /** The Java exception classes the binding can raise. Messages are not modelled. */
  datatype Exception =
    | IllegalStateException
    | IllegalArgumentException
    | NullPointerException
    | ArrayIndexOutOfBoundsException
    | OutOfMemoryError

  /** How a Java call ends: it returns a value or throws an exception. */
  datatype Outcome<T> = Returned(value: T) | Threw(exception: Exception)
}
