/** Optional values: `None` stands for JavaScript's `null`. */
module Wrappers {

  datatype Option<+T> = None | Some(value: T)

}
