/** Optional values: the model's rendering of `std::optional` and of a null pointer. */
module Wrappers {

  datatype Option<+T> = None | Some(value: T)
}
