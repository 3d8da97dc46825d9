/** An optional value: `None` stands for Java's `null` and for an exception that aborts a call. */
module Wrappers {

  datatype Option<+T> = None | Some(value: T)
}
