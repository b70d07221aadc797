/** The optional value and the two-way outcome used throughout the model. */
module Wrappers {
  datatype Option<+T> = None | Some(value: T) {
    function Else(other: T): T { if Some? then value else other }
  }

  /** A computation that either answers or throws; what it throws says no more than that it threw. */
  datatype Outcome<+T> = Ok(value: T) | Fault {
    predicate IsFailure() { Fault? }
    function PropagateFailure<U>(): Outcome<U>
      requires Fault?
    {
      Fault
    }
    function Extract(): T
      requires Ok?
    {
      value
    }
  }
}
