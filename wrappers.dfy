/** The optional value that stands for a pandas/NumPy NaN where the scripts compute one number. */
module Wrappers {

  datatype Option<+T> = None | Some(value: T)
}
