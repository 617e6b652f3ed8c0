/** A value that may be absent: the model's stand-in for an empty `std::shared_ptr` slot. */
module Wrappers {

  datatype Option<+T> = None | Some(value: T)

}
