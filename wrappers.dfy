/** The one failure-compatible wrapper the model needs: a lookup or a
    computation that may not produce a value. */
module Wrappers {

  datatype Option<+T> = None | Some(value: T)

}
