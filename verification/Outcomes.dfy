/** What the modelled functions share: Go's (value, error) pairs, "value or nothing", and cancellable contexts. */
module Outcomes {
  datatype Option<+T> = None | Some(value: T)

  datatype Result<+T, +E> = Ok(value: T) | Err(error: E)

  /** A context as its user sees it: cancelled from some poll on, or never. */
  datatype Context = Context(cancelledFrom: Option<nat>) {
    predicate Done(poll: nat) {
      cancelledFrom.Some? && cancelledFrom.value <= poll
    }
  }
}
