/** Optional values. `None` stands for the exception a C# call throws where the model has no value. */
module Wrappers {
  datatype Option<T> = None | Some(value: T)
}
