/** The Some/None datatype, failure-compatible so that `:-` can be used with it. */
module Wrappers {

  datatype Option<+T> = None | Some(value: T) {

    /** An absent value stops a `:-` chain. */
    predicate IsFailure() {
      None?
    }

    /** Converts a None to an Option of a different value type. */
    function PropagateFailure<U>(): Option<U>
      requires None?
    {
      None
    }

    /** What a `:-` binds when the value is present. */
    function Extract(): T
      requires Some?
    {
      value
    }
  }
}
