/** The failure-compatible Option type used for every decode result: `None` stands
    for Kotlin's `null` (and for an exception caught at a decode boundary). */
module Wrappers {

  datatype Option<+T> = None | Some(value: T) {

    predicate IsFailure() {
      None?
    }

    function PropagateFailure<U>(): Option<U>
      requires None?
    {
      None
    }

    function Extract(): T
      requires Some?
    {
      value
    }
  }
}
