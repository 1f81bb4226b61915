/** A minimal optional-value datatype, used for "absent name" and "absent key" answers. */
module Wrappers {

  datatype Option<+T> = None | Some(value: T)
}
