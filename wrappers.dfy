/** Option, Result and the error kinds the backend raises. Each Python exception
    that the core raises or lets through becomes an `Err` value. */
module Wrappers {

  datatype Option<+T> = None | Some(value: T) {
    function GetOr(default: T): T {
      match this
      case Some(v) => v
      case None => default
    }
  }

  /** Which check of the validation layer rejected a name. */
  datatype NameProblem = Empty | TooLong | BadCharacters | DotDot

  /** The exceptions of the core, by their Python class. */
  datatype Error =
    | InvalidPackageName(input: string, problem: NameProblem)  // InvalidPackageNameError
    | PathTraversal(input: string)           // PathTraversalError (a ValueError)
    | TypeError(what: string)                // TypeError
    | KeyError(key: string)                  // KeyError on a missing record field
    | FileNotFound(path: string)             // FileNotFoundError from open()
    | IsADirectory(path: string)             // IsADirectoryError: the path names a directory
    | NotADirectory(path: string)            // NotADirectoryError: a directory on the path is a file
    | FileExists(path: string)               // FileExistsError: the parent directory to create is a file
    | ValueError(what: string)               // ValueError, e.g. text that is not an ISO timestamp
    | Undecodable(path: string)              // ValueError from json.load: JSONDecodeError, or UnicodeDecodeError
    | AttributeError(what: string)           // AttributeError, e.g. `.keys()` on a non-dict

  datatype Result<+T> = Ok(value: T) | Err(error: Error) {
    predicate IsFailure() {
      Err?
    }

    function PropagateFailure<U>(): Result<U>
      requires Err?
    {
      Err(error)
    }

    function Extract(): T
      requires Ok?
    {
      value
    }
  }
}
