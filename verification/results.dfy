/** Failure-carrying values shared by the decoder and the driver model. */
module Results {

  /** A value that may be absent; `None` also stands for JavaScript's NaN
      where a parse has nothing to return. */
  datatype Option<+T> = None | Some(value: T)

  /** The exceptions the driver can see: the DOMException names that Web
      Bluetooth rejects its promises with, and the RangeError a DataView
      raises for a read past the end of its buffer. */
  datatype Error =
    | NotFoundError
    | NetworkError
    | NotSupportedError
    | InvalidStateError
    | SecurityError
    | RangeError

  /** The settled state of a promise or of a call that may throw. */
  datatype Result<+T> = Ok(value: T) | Err(error: Error)

  /** A settled promise that carries no value. */
  datatype Outcome = Pass | Fail(error: Error)

  /** Awaiting `first` and then `second`: the first rejection wins. */
  function Then(first: Outcome, second: Outcome): (r: Outcome)
    ensures r.Pass? <==> first.Pass? && second.Pass?
    ensures first.Fail? ==> r == first
    ensures first.Pass? ==> r == second
  {
    if first.Fail? then first else second
  }
}
