/** Failure-compatible wrapper used for every "may be absent" result of the
    system: a null `unique_ptr`, an empty `std::optional`, a TypeScript
    `undefined`. */
module Wrappers {

  datatype Option<+T> = None | Some(value: T) {

    predicate IsFailure() {
      None?
    }

    function PropagateFailure<U>(): Option<U>
      requires None?
    {
      None
    }

    function Extract(): T
      requires Some?
    {
      value
    }
  }
}
