/** The optional value used wherever the monitor reads something that may be
    missing: a `None` attribute of a process record, a failed `float()`. */
module Wrappers {

  datatype Option<+T> = None | Some(value: T)

  /** Python's `x or 0` for a number that may be `None`. */
  function OrZero(x: Option<real>): real
  {
    match x
    case Some(v) => v
    case None => 0.0
  }
}
