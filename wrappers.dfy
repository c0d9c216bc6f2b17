/** The optional value used for the nullable columns and the optional fields of the records. */
module Wrappers {

  /** `None` stands for Python's `None` and SQL's NULL. */
  datatype Option<+T> = None | Some(value: T)
}
