/** Value wrappers shared by every handler in the model.
    - Option<T> stands for a Python argument or value that may be absent (None).
    - Completion<T> is what a Python call does: it either returns a value normally
      or raises an exception, whose message is kept as text.
 */
module Outcomes {

  /** An optional value; None plays the part of Python's None / an omitted argument. */
  datatype Option<+T> = None | Some(value: T)

  /** The result of a Python call: a normal return, or a raised exception. */
  datatype Completion<+T> = Normal(value: T) | Raised(error: string)
}
