/** Java's nullable references and thrown exceptions, as values. */
module Wrappers {

  /** A Java reference that may be null: None stands for null. */
  datatype Option<+T> = None | Some(value: T)

  /** A call that either returns a value or throws a Java exception. */
  datatype Result<+T> = Ok(value: T) | Err(error: Failure)

  /** The exceptions the core throws or lets escape to its callers. */
  datatype Failure =
    | IllegalArgument(message: string)   // java.lang.IllegalArgumentException
    | IllegalState(message: string)      // java.lang.IllegalStateException
    | NullPointer                        // java.lang.NullPointerException
    | DataAccess                         // an exception raised by the database driver

  /** Concatenation regroups freely; the verifier needs this spelled out in long accumulations. */
  lemma AppendAssoc<T>(a: seq<T>, b: seq<T>, c: seq<T>)
    ensures (a + b) + c == a + (b + c)
  {
  }
}
