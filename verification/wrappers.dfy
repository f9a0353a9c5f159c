/** The nullable values of the hooks (`null` ports, readers and error messages). */
module Wrappers {

  datatype Option<+T> = None | Some(value: T)
}
