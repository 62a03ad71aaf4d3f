/** The optional value used wherever the program returns `None` or a Python call may fail. */
module Wrappers {

  datatype Option<+T> = None | Some(value: T)
}
