module Common {
  datatype Option<+T> = None | Some(value: T)

  /** How a call that may raise ended: it returned a value, or an exception escaped it. */
  datatype Completion<+T> = Returned(value: T) | Threw
}
