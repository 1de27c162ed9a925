/** An optional value: None stands for a JavaScript value that is undefined or NaN. */
module Wrappers {

  datatype Option<+T> = None | Some(value: T)
}
