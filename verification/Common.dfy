/** Datatypes and sequence functions shared by the modules of this project. */
module Common {

  datatype Option<+T> = None | Some(value: T)

  datatype Result<+T, +E> = Ok(value: T) | Err(error: E)

  function Last<T>(s: seq<T>): T
    requires s != []
  {
    s[|s| - 1]
  }

  function Front<T>(s: seq<T>): seq<T>
    requires s != []
  {
    s[..|s| - 1]
  }

  /** The pieces joined end to end. */
  function Flatten<T>(pieces: seq<seq<T>>): seq<T> {
    if pieces == [] then [] else Flatten(Front(pieces)) + Last(pieces)
  }
}
