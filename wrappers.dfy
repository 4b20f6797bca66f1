/** The absent value the Java and JavaScript sources express with null. */
module Wrappers {
  datatype Option<+T> = None | Some(value: T)
}
