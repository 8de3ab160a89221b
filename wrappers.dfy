/** The optional value the handler returns for a lookup miss and takes for a failed listing. */
module Wrappers {

  datatype Option<+T> = None | Some(value: T)
}
