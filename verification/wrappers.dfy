/** The optional value used wherever the application reads a nullable field or a lookup that may miss. */
module Wrappers {

  /** `None` stands for JavaScript's `null`/`undefined`. */
  datatype Option<+T> = None | Some(value: T)
}
