/** Option type shared by the model's modules. */
module Wrappers {

  /** `None` stands for a missing value: a student id with no rows, a value outside every bin. */
  datatype Option<+T> = None | Some(value: T)
}
