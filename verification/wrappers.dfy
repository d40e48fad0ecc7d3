/** Failure-carrying results shared by every component of the model. Java's
    `null` becomes `None`, and a thrown exception becomes `Err`. */
module Wrappers {

  datatype Option<+T> = None | Some(value: T)

  datatype Result<+T, +E> = Ok(value: T) | Err(error: E)

  /** The two unchecked exceptions the modelled classes throw. */
  datatype Exception = IllegalArgument | NoSuchElement
}
