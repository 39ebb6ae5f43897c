/** Option, for the places where the Java code returns null or throws instead of a value. */
module Wrappers {

  datatype Option<+T> = None | Some(value: T)
}
