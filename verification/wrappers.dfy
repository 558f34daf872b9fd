/** The optional value used wherever the scripts return `None` or read a
    missing (NaN) spreadsheet cell. */
module Wrappers {

  datatype Option<+T> = None | Some(value: T)
}
