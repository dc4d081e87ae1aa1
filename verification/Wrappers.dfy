/** A value that may be absent, as a C++ `std::optional` or a failed map lookup. */
module Wrappers {
  datatype Option<+T> = None | Some(value: T)
}
