/** Option: the `Optional[...]` results of the source (None or a value). */
module Wrappers {

  datatype Option<+T> = None | Some(value: T)

}
