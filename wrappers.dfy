/** Failure-compatible wrappers and the errors that abort a report run. */
module Wrappers {

  datatype Option<+T> = None | Some(value: T)

  /** A value or the error that stopped the computation; usable with `:-`. */
  datatype Result<+R, +E> = Ok(value: R) | Err(error: E) {

    predicate IsFailure() {
      Err?
    }

    function PropagateFailure<U>(): Result<U, E>
      requires Err?
    {
      Err(error)
    }

    function Extract(): R
      requires Ok?
    {
      value
    }
  }

  /** The two fatal error kinds of a run: a malformed timestamp, or a failed lookup. */
  datatype RunError =
    | ParseError(text: string)                       // pandas raises ValueError
    | UnknownBranch(name: string)                    // conv_dict raises KeyError
    | MissingDistance(fromCode: string, toCode: string)  // chart .loc raises KeyError
}
