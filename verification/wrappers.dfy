/** The Option type used wherever the Java code uses `null` for "absent". */
module Wrappers {

  datatype Option<+T> = None | Some(value: T)
}
