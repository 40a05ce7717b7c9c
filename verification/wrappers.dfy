/** Option values shared by the backend model. */
module Wrappers {

  /** `None` stands for a JavaScript value that is absent or `undefined`. */
  datatype Option<+T> = None | Some(value: T)
}
