/** Optional values: `None` stands for the absence of a value, such as a null
    reference or an operation that raised an exception. */
module Wrappers {
  datatype Option<+T> = None | Some(value: T)
}
