/** Datatypes shared by the model: `Option` stands for a JavaScript
    value that may be `undefined`/`null`, `Result` for a parse that may fail. */
module Wrappers {

  datatype Option<+T> = None | Some(value: T)

  datatype Result<+R, +E> = Success(value: R) | Failure(error: E)
}

/** The process environment table: a mapping from variable name to string value.
    A name that is not a key of the map reads as `undefined`. */
module Environment {
  import opened Wrappers

  type Env = map<string, string>

  /** `process.env[key]`, with `undefined` as `None`. */
  function Lookup(env: Env, key: string): Option<string>
  {
    if key in env then Some(env[key]) else None
  }
}
