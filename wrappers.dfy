/** Option, Result and the three states a field of a Python dict or database row can be in. */
module Wrappers {

  datatype Option<+T> = None | Some(value: T) {
    /** `x or default` for an optional value. */
    function GetOr(default: T): T {
      match this
      case Some(v) => v
      case None => default
    }
  }

  datatype Result<+T, +E> = Ok(value: T) | Err(error: E)

  /** A key of a dict built from a database row: absent, present with SQL NULL (Python None),
      or present with a value. `dict.get(k)` returns None for the first two. */
  datatype Field<+T> = Missing | Null | Present(value: T) {
    /** `d.get(k)` */
    function ToOption(): Option<T> {
      match this
      case Present(v) => Some(v)
      case _ => None
    }
  }
}
