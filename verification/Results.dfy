/** Result codes shared by every component of the framework. */
module Results {

  datatype Option<+T> = None | Some(value: T)

  datatype Result =
    | Ok
    | ErrInvalidArg
    | ErrOutOfRange
    | ErrNotFound
    | ErrState
    | ErrContract
    | ErrFull
    | ErrEmpty
    | ErrUnsupported
    | ErrPartial
    | ErrNoCapability
    | ErrAuth
    | ErrPolicy
    | ErrTimeout
    | ErrNotReady

  function Min(a: nat, b: nat): nat {
    if a <= b then a else b
  }

  function Max(a: nat, b: nat): nat {
    if a >= b then a else b
  }
}
