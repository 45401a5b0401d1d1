/** Python-level wrappers shared by the model: optional values (Python `None`),
    and the outcome of a call that may raise one of the exceptions the
    controllers can raise. */
module Py {

  /** A Python value that may be `None`. */
  datatype Option<+T> = None | Some(value: T)

  /** The exceptions the controllers can let escape. */
  datatype Exc =
    | IndexError      // `seq[k]` past the end, e.g. `"".split()[0]`
    | KeyError        // `self._sims[fsid]` for an unknown fsid
    | AssertionError  // a failed `assert` statement

  /** The outcome of a Python call: a value, or an exception that escaped. */
  datatype Result<+T> = Ok(value: T) | Raise(exc: Exc)

  /** Python truthiness of a string that may be `None`: `None` and `""` are false. */
  predicate Truthy(s: Option<string>)
  {
    s.Some? && |s.value| > 0
  }
}
