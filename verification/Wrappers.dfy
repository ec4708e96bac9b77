/** Option and Result, standing for sql.Null values and for Go's (value, error) pairs. */
module Wrappers {

  datatype Option<+T> = None | Some(value: T) {
    /** The V field of a sql.Null: the stored value, or the zero value when the column is NULL. */
    function GetOr(default: T): T {
      if Some? then value else default
    }
  }

  datatype Result<+T, +E> = Ok(value: T) | Err(error: E)
}
