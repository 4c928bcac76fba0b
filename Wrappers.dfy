/** The optional value used wherever the Java code returns or stores {@code null}. */
module Wrappers {
  datatype Option<+T> = None | Some(value: T)
}
