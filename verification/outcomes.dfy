/** The outcomes of the natural-gradient core's fallible operations.

    The fatal conditions the model represents as values (an empty dot
    product, a superfluous gradient variable, an over-long clone parameter
    list) become an `Err` carrying one of the `Error` constructors below, so
    that callers of the model see the error path explicitly. */
module Outcomes {

  /** The fatal (programmer or configuration) errors the core can raise. */
  datatype Error =
    | EmptyDot             // "cannot dot empty gradients"
    | SuperfluousVariable  // "superfluous gradient variable"
    | ParamCountMismatch   // the cloned policy has more parameters than the original

  datatype Option<T> = None | Some(value: T)

  datatype Result<T> = Ok(value: T) | Err(error: Error)
}
