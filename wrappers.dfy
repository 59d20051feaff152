/** An optional value, standing for a .NET reference that may be null or a match that may fail. */
module Wrappers {
  datatype Option<+T> = None | Some(value: T)
}
