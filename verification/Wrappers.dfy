/** What several modules need and no program defines. */
module Wrappers {

  datatype Option<T> = None | Some(value: T)
}
