/** Failure-compatible optional values, used for the decoders of the model. */
module Wrappers {

  /** A value that may be absent. */
  datatype Option<+T> = None | Some(value: T) {

    /** An absent value stops a `:-` chain. */
    predicate IsFailure() {
      None?
    }

    /** Carries an absence over to an optional value of another type. */
    function PropagateFailure<U>(): Option<U>
      requires None?
    {
      None
    }

    /** The value held, once a `:-` chain knows it is there. */
    function Extract(): T
      requires Some?
    {
      value
    }
  }
}
