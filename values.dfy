/** Java-level values shared by the container, the interceptor and the transfer service. */
module Values {

  /** A reference to an object created by the container: its index in the container's heap. */
  type Ref = nat

  datatype Option<+T> = None | Some(value: T)

  /** Exceptions and errors as the Java code raises, catches and rethrows them. */
  datatype Exc =
    | RuntimeError(message: string)       // `new RuntimeException(...)`
    | NullPointer                         // a call on a null reference
    | ClassCast                           // a failing reference cast
    | InvocationTarget(cause: Exc)        // what `Method.invoke` throws when the invoked method throws
    | Raised(name: string)                // an exception thrown by code outside this model (a DAO, a transaction backend)
    | JavaError(name: string)             // a `java.lang.Error`: not caught by `catch (Exception e)`

  /** True for everything `catch (Exception e)` catches. */
  predicate IsException(e: Exc) {
    !e.JavaError?
  }

  /** Argument and result values passed through reflective calls. */
  datatype Value = Null | Int(i: int) | Str(s: string) | Obj(ref: Ref)

  /** How a Java call ends: with a value, or by throwing. */
  datatype Outcome = Returned(value: Value) | Threw(error: Exc)

  datatype Result<+T> = Ok(value: T) | Err(error: Exc)
}
