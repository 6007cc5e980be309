/** Small option type used across the model (a NULL pointer in the tracker's C++). */
module Wrappers {

  datatype Option<+T> = None | Some(value: T)

}
