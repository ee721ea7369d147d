/** Small value wrappers shared by every module of the model. */
module Wrappers {

  /** A nullable value: `None` is Python's `None`, a SQL `NULL`. */
  datatype Option<+T> = None | Some(value: T) {
    function GetOr(default: T): T {
      match this
      case Some(v) => v
      case None => default
    }
  }

  /** One key of a JSON request body: not sent at all, sent as `null`, or sent
      with a value. Pydantic's `dict(exclude_unset=True)` keeps exactly the keys
      that were sent, `null` ones included, so the model keeps the three apart. */
  datatype Field<+T> = Unset | Null | Value(value: T) {
    /** The value an optional pydantic field (`x: T | None = None`) ends up with. */
    function Nullable(): Option<T> {
      if Value? then Some(value) else None
    }
  }

  /** How a handler can fail, in place of the HTTP status the web layer would send:
      `NotFound` is the 404 a handler raises, `Invalid` the 422 of request
      validation, `ServerError` an exception nobody catches (a 500). */
  datatype Error = NotFound | Invalid | ServerError

  /** The outcome of a handler: its response or the error it ends with. */
  datatype Result<+T> = Ok(value: T) | Err(error: Error)
}
