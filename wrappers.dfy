/** The Some/None datatype standing for Python's `None` results. */
module Wrappers {

  datatype Option<+T> = None | Some(value: T)

}
