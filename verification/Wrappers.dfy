/** Datatypes shared by the models. */
module Wrappers {

  datatype Option<+T> = None | Some(value: T)

  /** Where a run of a state machine leads, if all its steps are possible. */
  datatype Outcome<+S> = Reached(state: S) | Impossible
}
