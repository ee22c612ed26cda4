/** Option, standing for a C# `null` / a JavaScript `undefined` result. */
module Wrappers {
  datatype Option<+T> = None | Some(value: T)
}
