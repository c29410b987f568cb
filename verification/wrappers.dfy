/** The optional value used for "a record" versus the NULL that ends a sequence,
    and for the outcome of parsing. It supports `:-` through IsFailure/PropagateFailure/Extract. */
module Wrappers {

  datatype Option<+T> = None | Some(value: T) {

    predicate IsFailure() {
      None?
    }

    function PropagateFailure<U>(): Option<U>
      requires None?
    {
      None
    }

    function Extract(): T
      requires Some?
    {
      value
    }
  }
}
