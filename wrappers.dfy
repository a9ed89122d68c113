/** Java's nullable results: `None` stands for `null`. */
module Wrappers {

  datatype Option<+T> = None | Some(value: T)
}
