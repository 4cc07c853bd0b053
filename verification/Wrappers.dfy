/** Result types shared by the semantics and the passes. */
module Wrappers {
  datatype Option<+T> = None | Some(value: T) {
    predicate IsFailure() {
      None?
    }

    function PropagateFailure<U>(): Option<U>
      requires None?
    {
      None
    }

    function Extract(): T
      requires Some?
    {
      value
    }
  }

  /** How a pass ends that may stop at a failed assertion. */
  datatype Status = Success | Stopped {
    predicate IsFailure() {
      Stopped?
    }

    function PropagateFailure(): Status {
      Stopped
    }
  }
}
