/** The optional value and the value-or-error the model returns where Go
    returns a nil-able value or an `error`. */
module Outcomes {

  datatype Option<T> = None | Some(value: T)

  datatype Result<T, E> = Ok(value: T) | Err(error: E)
}
