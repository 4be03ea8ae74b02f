/** Values the engine passes around for Python's `None`, exceptions and
    "either a result or the exception that stopped it". */
module Errors {

  datatype Option<T> = None | Some(value: T)

  /** The exceptions the engine raises, returns as values or catches. */
  datatype Exc =
    | TypeError(msg: string)
    | ValueError(msg: string)
    | IndexError
    | KeyError
    | ImportError(msg: string)
    | ModuleNotFound(name: string)     // a subclass of ImportError
    | FileNotFound(path: string)
    | CannotHandle(msg: string)        // extractor.CannotHandleException
    | DifferentFile(msg: string)       // utils.DifferentFileError
    | ExceptionClass                   // the bare class `Exception`, used as a value by parser.py
    | PreventUpdate                    // dash.exceptions.PreventUpdate
    | OtherError(name: string)         // anything else a plugin or the I/O layer raises

  /** `except ImportError` catches ImportError and its subclass ModuleNotFoundError. */
  predicate IsImportError(e: Exc) {
    e.ImportError? || e.ModuleNotFound?
  }

  /** A call that returns `value` or raises `error`. */
  datatype Result<T> = Ok(value: T) | Err(error: Exc)
}
