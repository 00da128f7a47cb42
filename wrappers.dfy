/** Small helper datatypes shared by the modules of this project. */
module Wrappers {

  /** A value that may be missing (a lookup that finds nothing, a null pointer). */
  datatype Option<+T> = None | Some(value: T)

}
