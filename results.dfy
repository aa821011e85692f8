// Result and option values shared by the modules of the LDAP group lookup model.
module Results {

  /** A possibly absent value: a Java reference that may be null. */
  datatype Option<+T> = None | Some(value: T)

  /** The outcome of an operation that either produces a value or fails. */
  datatype Result<+T, +E> = Ok(value: T) | Err(error: E)

  /** The unchecked Java exceptions the modelled code can raise. The entry point
      catches only directory errors and Ballerina error values, so these escape
      to its caller.
      `index` is the out-of-range index that was read. */
  datatype Unchecked =
    | StringIndexOutOfBounds(index: int)
    | IndexOutOfBounds(index: int)

  /** `prefix` written in front of a successful string; a failure passes through. */
  function Prepend<E>(prefix: string, r: Result<string, E>): Result<string, E>
  {
    match r
    case Ok(s) => Ok(prefix + s)
    case Err(e) => Err(e)
  }

  lemma PrependPrepend<E>(a: string, b: string, r: Result<string, E>)
    ensures Prepend(a, Prepend(b, r)) == Prepend(a + b, r)
  {
    if r.Ok? {
      assert a + (b + r.value) == (a + b) + r.value;
    }
  }
}
