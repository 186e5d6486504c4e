/** Optional values: `None` stands for the C# `null` a method returns or receives. */
module Wrappers {

  datatype Option<+T> = None | Some(value: T)
}
