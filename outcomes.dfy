/** Error values and the result shapes the bookstore's operations return. */
module Outcomes {

  datatype Option<T> = None | Some(value: T)

  /** The errors the modelled operations can report. */
  datatype Error =
    | RecordNotFound    // GORM's ErrRecordNotFound from a lookup by id
    | PurchaseRejected  // the book's own purchase check refused the request

  /** A value together with Go's `error`: `Ok(v)` is `(v, nil)`. */
  datatype Result<T> = Ok(value: T) | Err(error: Error)
}
