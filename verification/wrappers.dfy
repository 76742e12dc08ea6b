/** Failure-carrying datatypes shared by every module of the model.

    The catalog readers signal failure by raising Python exceptions; the model
    returns `Err(kind)` instead, with `kind` naming the exception class the
    reader raises (or lets escape from the library call it makes). */
module Wrappers {

  datatype Option<+T> = None | Some(value: T)

  /** The Python exception classes that the modelled code can raise. */
  datatype PyError =
    | ValueError
    | KeyError
    | TypeError
    | IndexError
    | RuntimeError
    | AssertionError
    | MemoryError
    | NoSuchNode
    | NameError
    | GenericException

  datatype Result<+T> = Ok(value: T) | Err(error: PyError)
}
